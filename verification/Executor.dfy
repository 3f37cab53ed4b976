/** The executor driving a fork server: test cases go through a file, output comes back through
    pipes that are polled until the reply has arrived and the pipes have run dry. The executor's
    steps interleave with every step of the fork server machine. */
module Executor {
  import opened Bits
  import opened ForkServer
  import opened Framing
  import opened Prelude

  const EXECUTOR_ID: nat := 1
  const CHUNK_SIZE: nat := 512

  /** What one call returns; no response stands for NoResponseError. */
  datatype Outcome = Outcome(response: Option<Response>, out: seq<Byte>, err: seq<Byte>)

  /** Where the executor is. The file position is 0 from `Rewound` until the write. */
  datatype CallPc =
    | Idle
    | Rewound(input: seq<Byte>)
    | Overwritten(input: seq<Byte>)
    | Truncated(input: seq<Byte>)
    | Polling(drain: bool, response: Option<Response>, out: seq<Byte>, err: seq<Byte>)

  datatype Session = Session(
    world: World, pc: CallPc, stdinFile: seq<Byte>,
    testcases: seq<seq<Byte>>,    // inputs of the calls whose command has been sent
    outcomes: seq<Outcome>)       // what the finished calls returned

  /** After the handshake and OpenStdin; the file may hold anything left by an earlier executor. */
  function Start(oldFile: seq<Byte>): Session
  {
    var w := ForkServer.Init(EXECUTOR_ID);
    Session(w.(toDaemon := Encode(ReadStdin), sent := [ReadStdin]), Idle, oldFile, [], [])
  }

  /** What one `epoll_wait` reports, together with what the following `read` delivers. */
  datatype Ready =
    | StdoutReady(bytes: seq<Byte>)
    | StderrReady(bytes: seq<Byte>)
    | ReplyReady(response: Response)
    | WaitInterrupted
    | Nothing

  /** The polling loop's reaction; the first reply makes every later wait return at once. */
  function Handle(pc: CallPc, event: Ready): CallPc
    requires pc.Polling?
  {
    match event
    case StdoutReady(bytes) => pc.(out := pc.out + bytes)
    case StderrReady(bytes) => pc.(err := pc.err + bytes)
    case ReplyReady(response) => pc.(drain := true, response := Some(response))
    case _ => pc
  }

  /** `write` at an offset: bytes beyond the written range stay. */
  function WriteAt(file: seq<Byte>, offset: nat, bytes: seq<Byte>): seq<Byte>
    requires offset <= |file|
  {
    file[..offset] + bytes + file[Min(offset + |bytes|, |file|)..]
  }

  /** `ftruncate`: cut, or pad with zeros. */
  function ResizeTo(file: seq<Byte>, size: nat): seq<Byte>
  {
    if size <= |file| then file[..size] else file + seq(size - |file|, i => 0)
  }

  /** What the two calls do to each byte. */
  lemma FileCallsBytewise(file: seq<Byte>, offset: nat, bytes: seq<Byte>, size: nat)
    requires offset <= |file|
    ensures var w := WriteAt(file, offset, bytes);
            && |w| == (if offset + |bytes| < |file| then |file| else offset + |bytes|)
            && forall k: nat :: k < |w| ==>
                 w[k] == if offset <= k < offset + |bytes| then bytes[k - offset] else file[k]
    ensures |ResizeTo(file, size)| == size
    ensures forall k: nat :: k < size ==> ResizeTo(file, size)[k] == if k < |file| then file[k] else 0
  {
  }

  datatype Move =
    | Environment(step: Step)     // the daemon, the timer, the children
    | CallBegins(input: seq<Byte>)
    | WriteInput
    | TruncateFile
    | SendExecute
    | PollStdout(count: nat)
    | PollStderr(count: nat)
    | PollReply
    | PollNothing
    | PollInterrupted

  predicate Possible(s: Session, m: Move)
  {
    match m
    case Environment(step) =>
      Enabled(s.world, step) &&
      !step.ClientSends? && !step.ClientTakesReply? && !step.ClientTakesOutput?
    case CallBegins(_) => s.pc.Idle?
    case WriteInput => s.pc.Rewound?
    case TruncateFile => s.pc.Overwritten?
    case SendExecute => s.pc.Truncated?
    case PollStdout(n) => s.pc.Polling? && 0 < n <= Min(CHUNK_SIZE, |s.world.stdout|)
    case PollStderr(n) => s.pc.Polling? && 0 < n <= Min(CHUNK_SIZE, |s.world.stderr|)
    case PollReply => s.pc.Polling? && s.world.replies != []
    case PollNothing =>
      s.pc.Polling? && s.pc.drain && s.world.stdout == [] && s.world.stderr == [] && s.world.replies == []
    case PollInterrupted => s.pc.Polling?
  }

  function Do(s: Session, m: Move): Session
    requires Possible(s, m)
  {
    match m
    case Environment(step) => s.(world := Next(s.world, step))
    case CallBegins(input) => s.(pc := Rewound(input))
    case WriteInput =>
      s.(pc := Overwritten(s.pc.input), stdinFile := WriteAt(s.stdinFile, 0, s.pc.input))
    case TruncateFile =>
      s.(pc := Truncated(s.pc.input), stdinFile := ResizeTo(s.stdinFile, |s.pc.input|))
    case SendExecute =>
      s.(pc := Polling(false, None, [], []), testcases := s.testcases + [s.pc.input],
         world := Next(s.world, ClientSends(Execute)))
    case PollStdout(n) =>
      s.(pc := Handle(s.pc, StdoutReady(s.world.stdout[..n])), world := Next(s.world, ClientTakesOutput(true, n)))
    case PollStderr(n) =>
      s.(pc := Handle(s.pc, StderrReady(s.world.stderr[..n])), world := Next(s.world, ClientTakesOutput(false, n)))
    case PollReply =>
      s.(pc := Handle(s.pc, ReplyReady(s.world.replies[0])), world := Next(s.world, ClientTakesReply))
    case PollNothing =>
      s.(pc := Idle, outcomes := s.outcomes + [Outcome(s.pc.response, s.pc.out, s.pc.err)])
    case PollInterrupted => s
  }

  function Play(s: Session, moves: seq<Move>): Option<Session>
  {
    if moves == [] then Some(s)
    else
      var u := Play(s, moves[..|moves| - 1]);
      var m := moves[|moves| - 1];
      if u.Some? && Possible(u.value, m) then Some(Do(u.value, m)) else None
  }

  // ----- the invariant -----

  /** Calls whose command has been sent. */
  function Calls(s: Session): nat
  {
    |s.outcomes| + (if s.pc.Polling? then 1 else 0)
  }

  /** ReadStdin once, then one Execute per call. */
  function Script(calls: nat): seq<Command>
  {
    [ReadStdin] + seq(calls, i => Execute)
  }

  /** The executor asks for standard input and never redirects the output. */
  ghost predicate PlainExecution(e: Execution)
  {
    e.settings.readStdin && !e.settings.saveOutput
  }

  ghost predicate AllPlain(es: seq<Execution>)
  {
    forall k :: 0 <= k < |es| ==> PlainExecution(es[k])
  }

  /** Replies: all earlier ones have been collected; the current one is due, in the pipe, or held. */
  ghost predicate ReplyOk(pc: CallPc, n: nat, replies: seq<Response>, written: seq<Response>)
  {
    if !pc.Polling? then replies == [] && |written| == n
    else if pc.drain then
      replies == [] && |written| == n + 1 && pc.response == Some(written[n])
    else
      pc.response == None &&
      ((|written| == n && replies == []) || (|written| == n + 1 && replies == [written[n]]))
  }

  /** What the executor holds followed by what the pipe holds is what the current child wrote. */
  ghost predicate OutputOk(pc: CallPc, n: nat, es: seq<Execution>, stdout: seq<Byte>, stderr: seq<Byte>)
  {
    if pc.Polling? && |es| == n + 1 then
      pc.out + stdout == es[n].out && pc.err + stderr == es[n].err
    else (pc.Polling? ==> pc.out == [] && pc.err == []) && stdout == [] && stderr == []
  }

  /** A finished call returned what its child's execution amounts to. */
  ghost predicate Returned(o: Outcome, e: Execution)
  {
    e.status.Some? && o == Outcome(Some(ResponseOf(e.status.value)), e.out, e.err)
  }

  ghost predicate OutcomesOk(outcomes: seq<Outcome>, es: seq<Execution>)
  {
    |outcomes| <= |es| && forall k :: 0 <= k < |outcomes| ==> Returned(outcomes[k], es[k])
  }

  ghost predicate FileOk(pc: CallPc, n: nat, stdinFile: seq<Byte>, testcases: seq<seq<Byte>>)
  {
    |testcases| == n + (if pc.Polling? then 1 else 0) &&
    match pc
    case Overwritten(input) => input <= stdinFile
    case Truncated(input) => stdinFile == input
    case Polling(_, _, _, _) => stdinFile == testcases[n]
    case _ => true
  }

  /** The part of the invariant about the fork server and the command pipe. */
  ghost predicate ChannelOk(w: World, calls: nat)
  {
    Inv(w, EXECUTOR_ID) && w.sent == Script(calls) && AllPlain(w.executions)
  }

  ghost predicate SessionInv(s: Session)
  {
    var w, n := s.world, |s.outcomes|;
    && ChannelOk(w, Calls(s))
    && ReplyOk(s.pc, n, w.replies, w.written)
    && OutputOk(s.pc, n, w.executions, w.stdout, w.stderr)
    && OutcomesOk(s.outcomes, w.executions)
    && FileOk(s.pc, n, s.stdinFile, s.testcases)
  }

  lemma StartInv(oldFile: seq<Byte>)
    ensures SessionInv(Start(oldFile))
  {
    var w := ForkServer.Init(EXECUTOR_ID);
    StepKeepsInv(w, EXECUTOR_ID, ClientSends(ReadStdin));
    assert Start(oldFile).world == Next(w, ClientSends(ReadStdin)) by {
      assert [] + Encode(ReadStdin) == Encode(ReadStdin) && [] + [ReadStdin] == [ReadStdin];
    }
    assert Script(0) == [ReadStdin];
  }

  // ----- what the fork server's invariant says here -----

  lemma {:induction false} ScriptExecutions(k: nat, j: nat)
    requires j <= k + 1
    ensures |Executions(DefaultSettings(EXECUTOR_ID), Script(k)[..j])| == if j == 0 then 0 else j - 1
    ensures forall i :: 0 <= i < |Executions(DefaultSettings(EXECUTOR_ID), Script(k)[..j])| ==>
              Executions(DefaultSettings(EXECUTOR_ID), Script(k)[..j])[i] ==
              Settings(EXECUTOR_ID, 20 * 1000, true, false)
    ensures Fold(DefaultSettings(EXECUTOR_ID), Script(k)[..j]) ==
            Settings(EXECUTOR_ID, 20 * 1000, j > 0, false)
  {
    if j > 0 {
      ScriptExecutions(k, j - 1);
      assert Script(k)[..j][..j - 1] == Script(k)[..j - 1];
      assert Script(k)[..j][j - 1] == if j == 1 then ReadStdin else Execute;
    }
  }

  /** How far the daemon can be when `calls` commands have been sent. */
  lemma DaemonProgress(w: World, calls: nat)
    requires Inv(w, EXECUTOR_ID) && w.sent == Script(calls)
    ensures |w.written| <= |w.executions| <= calls
    ensures |w.executions| == |w.written| + (if Busy(w.pc) || w.pc.Replying? then 1 else 0)
    ensures w.pc.Forking? ==> |w.executions| < calls
    ensures w.pc.Forking? ==> w.settings == Settings(EXECUTOR_ID, 20 * 1000, true, false)
    ensures forall k :: 0 <= k < |w.written| ==>
              w.executions[k].status.Some? && w.written[k] == ResponseOf(w.executions[k].status.value)
    ensures w.pc.Replying? ==>
              w.executions[|w.written|].status.Some? &&
              w.pc.response == ResponseOf(w.executions[|w.written|].status.value)
    ensures !Busy(w.pc) ==> w.procs == map[]
    ensures Busy(w.pc) ==> w.procs.Keys == {w.executions[|w.executions| - 1].pid}
  {
    var d := |w.done|;
    assert w.done == Script(calls)[..d];
    assert ExecutionsOk(w, EXECUTOR_ID);
    ScriptExecutions(calls, d);
    hide Inv, FramingOk, PidsOk, TimerOk, Executions, Fold, ResponseOf, Script;
    if Busy(w.pc) {
      var n := |w.executions| - 1;
      assert forall k :: 0 <= k < n ==> w.executions[..n][k] == w.executions[k];
    } else if w.pc.Replying? {
      assert forall k :: 0 <= k < |w.written| ==> (w.written + [w.pc.response])[k] == w.written[k];
    }
  }

  // ----- the environment's steps -----

  /** Steps that touch neither the executions, nor the replies, nor the output pipes. */
  predicate Silent(step: Step)
  {
    !step.DaemonForks? && !step.ChildWrites? && !step.DaemonReplies? && !step.DaemonReaps? &&
    !step.ClientSends? && !step.ClientTakesReply? && !step.ClientTakesOutput?
  }

  lemma SilentEffect(w: World, step: Step)
    requires Enabled(w, step) && Silent(step)
    ensures var w' := Next(w, step);
            && w'.sent == w.sent && w'.executions == w.executions && w'.written == w.written
            && w'.replies == w.replies && w'.stdout == w.stdout && w'.stderr == w.stderr
  {
  }

  lemma SilentKeeps(s: Session, step: Step)
    requires SessionInv(s) && Enabled(s.world, step) && Silent(step)
    ensures SessionInv(s.(world := Next(s.world, step)))
  {
    hide Next, Enabled, Inv, ReplyOk, OutputOk, OutcomesOk, FileOk, AllPlain, Script;
    StepKeepsInv(s.world, EXECUTOR_ID, step);
    SilentEffect(s.world, step);
  }

  lemma ForkEffect(w: World, pid: nat)
    requires Enabled(w, DaemonForks(pid))
    ensures var w' := Next(w, DaemonForks(pid));
            && w'.sent == w.sent && w'.written == w.written
            && w'.replies == w.replies && w'.stdout == w.stdout && w'.stderr == w.stderr
            && w'.executions == w.executions + [Execution(pid, w.settings, [], [], None)]
            && w.pc.Forking?
  {
  }

  lemma ForkKeeps(s: Session, pid: nat)
    requires SessionInv(s) && Enabled(s.world, DaemonForks(pid))
    ensures SessionInv(s.(world := Next(s.world, DaemonForks(pid))))
  {
    hide Next, Enabled, Inv, FileOk, Script;
    StepKeepsInv(s.world, EXECUTOR_ID, DaemonForks(pid));
    DaemonProgress(s.world, Calls(s));
    ForkEffect(s.world, pid);
  }

  /** A child's output joins the pipe and the history of the only execution it can belong to. */
  lemma WriteEffect(w: World, pid: nat, toStdout: bool, bytes: seq<Byte>, n: nat)
    requires Enabled(w, ChildWrites(pid, toStdout, bytes))
    requires |w.executions| == n + 1 && w.executions[n].pid == pid && PlainExecution(w.executions[n])
    ensures var w', e := Next(w, ChildWrites(pid, toStdout, bytes)), w.executions[n];
            && w'.sent == w.sent && w'.written == w.written && w'.replies == w.replies
            && w'.stdout == w.stdout + (if toStdout then bytes else [])
            && w'.stderr == w.stderr + (if toStdout then [] else bytes)
            && w'.executions == w.executions[n :=
                 e.(out := e.out + (if toStdout then bytes else []), err := e.err + (if toStdout then [] else bytes))]
  {
    var e := w.executions[n];
    assert w.stdout + [] == w.stdout && w.stderr + [] == w.stderr && e.out + [] == e.out && e.err + [] == e.err;
  }

  lemma OutputGrows(pc: CallPc, n: nat, es: seq<Execution>, stdout: seq<Byte>, stderr: seq<Byte>,
                    moreOut: seq<Byte>, moreErr: seq<Byte>)
    requires OutputOk(pc, n, es, stdout, stderr) && pc.Polling? && |es| == n + 1
    ensures OutputOk(pc, n, es[n := es[n].(out := es[n].out + moreOut, err := es[n].err + moreErr)],
                     stdout + moreOut, stderr + moreErr)
  {
    Associative(pc.out, stdout, moreOut);
    Associative(pc.err, stderr, moreErr);
  }

  /** While a child exists, the executor is polling for it. */
  lemma ChildMeansPolling(s: Session)
    requires SessionInv(s) && (Busy(s.world.pc) || s.world.procs != map[])
    ensures s.pc.Polling? && |s.world.executions| == |s.outcomes| + 1 && |s.world.written| == |s.outcomes|
    ensures !s.pc.drain && s.world.replies == []
    ensures s.world.procs.Keys == {s.world.executions[|s.outcomes|].pid}
  {
    hide Next, Enabled, Inv, FileOk, Script, OutputOk, OutcomesOk, AllPlain;
    DaemonProgress(s.world, Calls(s));
  }

  /** Changing the current execution, but for its settings, concerns no finished call. */
  lemma CurrentChanges(outcomes: seq<Outcome>, es: seq<Execution>, n: nat, e: Execution)
    requires |es| == n + 1 && |outcomes| == n && OutcomesOk(outcomes, es) && AllPlain(es)
    requires e.settings == es[n].settings
    ensures OutcomesOk(outcomes, es[n := e]) && AllPlain(es[n := e])
  {
    hide Returned;
    assert PlainExecution(es[n]);
    assert forall k :: 0 <= k < n ==> es[n := e][k] == es[k];
  }

  /** Only the current child can write. */
  lemma WriterIsCurrent(s: Session, pid: nat, toStdout: bool, bytes: seq<Byte>)
    requires SessionInv(s) && Enabled(s.world, ChildWrites(pid, toStdout, bytes))
    ensures s.pc.Polling? && |s.world.executions| == |s.outcomes| + 1
    ensures s.world.executions[|s.outcomes|].pid == pid && PlainExecution(s.world.executions[|s.outcomes|])
  {
    hide *;
    WriterExists(s.world, pid, toStdout, bytes);
    Disassemble(s);
    ChildMeansPolling(s);
    PlainAt(s.world.executions, |s.outcomes|);
  }

  lemma WriterExists(w: World, pid: nat, toStdout: bool, bytes: seq<Byte>)
    requires Enabled(w, ChildWrites(pid, toStdout, bytes))
    ensures pid in w.procs.Keys && w.procs != map[]
  {
  }

  lemma PlainAt(es: seq<Execution>, k: nat)
    requires AllPlain(es) && k < |es|
    ensures PlainExecution(es[k])
  {
  }

  lemma WriteKeeps(s: Session, pid: nat, toStdout: bool, bytes: seq<Byte>)
    requires SessionInv(s) && Enabled(s.world, ChildWrites(pid, toStdout, bytes))
    ensures SessionInv(s.(world := Next(s.world, ChildWrites(pid, toStdout, bytes))))
  {
    hide *;
    var w, n := s.world, |s.outcomes|;
    var out, err := if toStdout then bytes else [], if toStdout then [] else bytes;
    Disassemble(s);
    StepKeepsInv(w, EXECUTOR_ID, ChildWrites(pid, toStdout, bytes));
    WriterIsCurrent(s, pid, toStdout, bytes);
    WriteEffect(w, pid, toStdout, bytes, n);
    OutputGrows(s.pc, n, w.executions, w.stdout, w.stderr, out, err);
    var e := w.executions[n];
    CurrentChanges(s.outcomes, w.executions, n, e.(out := e.out + out, err := e.err + err));
    Assemble(s.(world := Next(w, ChildWrites(pid, toStdout, bytes))));
  }

  lemma ReplyEffect(w: World)
    requires Enabled(w, DaemonReplies)
    ensures var w' := Next(w, DaemonReplies);
            && w'.sent == w.sent && w'.executions == w.executions && w'.stdout == w.stdout && w'.stderr == w.stderr
            && w'.replies == w.replies + [w.pc.response] && w'.written == w.written + [w.pc.response]
            && w.pc.Replying?
  {
  }

  lemma ReplyKeeps(s: Session)
    requires SessionInv(s) && Enabled(s.world, DaemonReplies)
    ensures SessionInv(s.(world := Next(s.world, DaemonReplies)))
  {
    hide Next, Enabled, Inv, FileOk, Script, OutputOk, OutcomesOk, AllPlain;
    StepKeepsInv(s.world, EXECUTOR_ID, DaemonReplies);
    ReplyEffect(s.world);
    DaemonProgress(s.world, Calls(s));
  }

  lemma ReapEffect(w: World, n: nat)
    requires Enabled(w, DaemonReaps) && |w.executions| == n + 1
    ensures var w', st := Next(w, DaemonReaps), w.procs[w.putPid].life.status;
            && w'.sent == w.sent && w'.stdout == w.stdout && w'.stderr == w.stderr
            && w'.replies == w.replies && w'.written == w.written
            && w'.executions == w.executions[n := w.executions[n].(status := Some(st))]
            && w.pc.Waiting?
  {
  }

  lemma OutputStays(pc: CallPc, n: nat, es: seq<Execution>, stdout: seq<Byte>, stderr: seq<Byte>, st: Status)
    requires OutputOk(pc, n, es, stdout, stderr) && |es| == n + 1
    ensures OutputOk(pc, n, es[n := es[n].(status := Some(st))], stdout, stderr)
  {
  }

  lemma ReapKeeps(s: Session)
    requires SessionInv(s) && Enabled(s.world, DaemonReaps)
    ensures SessionInv(s.(world := Next(s.world, DaemonReaps)))
  {
    var w, n := s.world, |s.outcomes|;
    var st := w.procs[w.putPid].life.status;
    assert Busy(w.pc);
    hide *;
    Disassemble(s);
    StepKeepsInv(w, EXECUTOR_ID, DaemonReaps);
    ChildMeansPolling(s);
    ReapEffect(w, n);
    OutputStays(s.pc, n, w.executions, w.stdout, w.stderr, st);
    CurrentChanges(s.outcomes, w.executions, n, w.executions[n].(status := Some(st)));
    Assemble(s.(world := Next(w, DaemonReaps)));
  }

  // ----- the executor's steps -----

  lemma FileStepKeeps(s: Session, m: Move)
    requires SessionInv(s) && Possible(s, m) && (m.CallBegins? || m.WriteInput? || m.TruncateFile?)
    ensures SessionInv(Do(s, m))
  {
    hide Next, Enabled, Inv, Script, OutcomesOk, AllPlain;
  }

  lemma ScriptGrows(n: nat)
    ensures Script(n) + [Execute] == Script(n + 1)
  {
  }

  lemma Disassemble(s: Session)
    requires SessionInv(s)
    ensures Inv(s.world, EXECUTOR_ID) && AllPlain(s.world.executions)
    ensures s.world.sent == Script(|s.outcomes| + (if s.pc.Polling? then 1 else 0))
    ensures ReplyOk(s.pc, |s.outcomes|, s.world.replies, s.world.written)
    ensures OutputOk(s.pc, |s.outcomes|, s.world.executions, s.world.stdout, s.world.stderr)
    ensures OutcomesOk(s.outcomes, s.world.executions)
    ensures FileOk(s.pc, |s.outcomes|, s.stdinFile, s.testcases)
  {
  }

  lemma Assemble(s: Session)
    requires Inv(s.world, EXECUTOR_ID) && AllPlain(s.world.executions)
    requires s.world.sent == Script(|s.outcomes| + (if s.pc.Polling? then 1 else 0))
    requires ReplyOk(s.pc, |s.outcomes|, s.world.replies, s.world.written)
    requires OutputOk(s.pc, |s.outcomes|, s.world.executions, s.world.stdout, s.world.stderr)
    requires OutcomesOk(s.outcomes, s.world.executions)
    requires FileOk(s.pc, |s.outcomes|, s.stdinFile, s.testcases)
    ensures SessionInv(s)
  {
  }

  lemma SendEffect(w: World)
    requires Enabled(w, ClientSends(Execute))
    ensures var w' := Next(w, ClientSends(Execute));
            && w'.sent == w.sent + [Execute] && w'.executions == w.executions && w'.written == w.written
            && w'.replies == w.replies && w'.stdout == w.stdout && w'.stderr == w.stderr
  {
  }

  lemma DoSend(s: Session)
    requires Possible(s, SendExecute)
    ensures Enabled(s.world, ClientSends(Execute)) && s.pc.Truncated?
    ensures Do(s, SendExecute) ==
            s.(pc := Polling(false, None, [], []), testcases := s.testcases + [s.pc.input],
               world := Next(s.world, ClientSends(Execute)))
  {
  }

  /** A new call starts with empty buffers, an empty reply pipe and its input in the file. */
  lemma CallStarts(pc: CallPc, n: nat, w: World, stdinFile: seq<Byte>, testcases: seq<seq<Byte>>)
    requires pc.Truncated? && ReplyOk(pc, n, w.replies, w.written) && |w.executions| <= n
    requires OutputOk(pc, n, w.executions, w.stdout, w.stderr) && FileOk(pc, n, stdinFile, testcases)
    ensures ReplyOk(Polling(false, None, [], []), n, w.replies, w.written)
    ensures OutputOk(Polling(false, None, [], []), n, w.executions, w.stdout, w.stderr)
    ensures FileOk(Polling(false, None, [], []), n, stdinFile, testcases + [pc.input])
  {
  }

  lemma SendKeeps(s: Session)
    requires SessionInv(s) && Possible(s, SendExecute)
    ensures SessionInv(Do(s, SendExecute))
  {
    hide *;
    DoSend(s);
    Disassemble(s);
    var n, s' := |s.outcomes|, Do(s, SendExecute);
    ScriptGrows(n);
    StepKeepsInv(s.world, EXECUTOR_ID, ClientSends(Execute));
    SendEffect(s.world);
    DaemonProgress(s.world, n);
    CallStarts(s.pc, n, s.world, s.stdinFile, s.testcases);
    Assemble(s');
  }

  lemma TakeOutputEffect(w: World, fromStdout: bool, n: nat)
    requires Enabled(w, ClientTakesOutput(fromStdout, n))
    ensures var w' := Next(w, ClientTakesOutput(fromStdout, n));
            && w'.sent == w.sent && w'.executions == w.executions && w'.written == w.written && w'.replies == w.replies
            && w'.stdout == (if fromStdout then w.stdout[n..] else w.stdout)
            && w'.stderr == (if fromStdout then w.stderr else w.stderr[n..])
  {
  }

  /** Moving bytes from a pipe into the executor's buffer keeps their concatenation. */
  lemma OutputMoves(pc: CallPc, n: nat, es: seq<Execution>, stdout: seq<Byte>, stderr: seq<Byte>, i: nat, j: nat)
    requires OutputOk(pc, n, es, stdout, stderr) && pc.Polling? && i <= |stdout| && j <= |stderr|
    ensures OutputOk(pc.(out := pc.out + stdout[..i], err := pc.err + stderr[..j]), n, es, stdout[i..], stderr[j..])
    ensures i == 0 ==> stdout[i..] == stdout && pc.out + stdout[..i] == pc.out
    ensures j == 0 ==> stderr[j..] == stderr && pc.err + stderr[..j] == pc.err
  {
    assert stdout == stdout[..i] + stdout[i..] && stderr == stderr[..j] + stderr[j..];
    Associative(pc.out, stdout[..i], stdout[i..]);
    Associative(pc.err, stderr[..j], stderr[j..]);
  }

  lemma BuffersDoNotMatter(pc: CallPc, n: nat, w: World, stdinFile: seq<Byte>, testcases: seq<seq<Byte>>,
                           out: seq<Byte>, err: seq<Byte>)
    requires pc.Polling? && ReplyOk(pc, n, w.replies, w.written) && FileOk(pc, n, stdinFile, testcases)
    ensures ReplyOk(pc.(out := out, err := err), n, w.replies, w.written)
    ensures FileOk(pc.(out := out, err := err), n, stdinFile, testcases)
  {
  }

  lemma DoTakeOutput(s: Session, m: Move)
    requires Possible(s, m) && (m.PollStdout? || m.PollStderr?)
    ensures Enabled(s.world, ClientTakesOutput(m.PollStdout?, m.count)) && s.pc.Polling?
    ensures m.count <= |if m.PollStdout? then s.world.stdout else s.world.stderr|
    ensures Do(s, m) ==
            s.(world := Next(s.world, ClientTakesOutput(m.PollStdout?, m.count)),
               pc := if m.PollStdout? then s.pc.(out := s.pc.out + s.world.stdout[..m.count])
                     else s.pc.(err := s.pc.err + s.world.stderr[..m.count]))
  {
  }

  lemma TakeOutputKeeps(s: Session, m: Move)
    requires SessionInv(s) && Possible(s, m) && (m.PollStdout? || m.PollStderr?)
    ensures SessionInv(Do(s, m))
  {
    var w, n := s.world, |s.outcomes|;
    var i, j := if m.PollStdout? then m.count else 0, if m.PollStdout? then 0 else m.count;
    hide *;
    DoTakeOutput(s, m);
    Disassemble(s);
    StepKeepsInv(w, EXECUTOR_ID, ClientTakesOutput(m.PollStdout?, m.count));
    TakeOutputEffect(w, m.PollStdout?, m.count);
    OutputMoves(s.pc, n, w.executions, w.stdout, w.stderr, i, j);
    BuffersDoNotMatter(s.pc, n, w, s.stdinFile, s.testcases, s.pc.out + w.stdout[..i], s.pc.err + w.stderr[..j]);
    Assemble(Do(s, m));
  }

  lemma TakeReplyEffect(w: World)
    requires Enabled(w, ClientTakesReply)
    ensures var w' := Next(w, ClientTakesReply);
            && w'.sent == w.sent && w'.executions == w.executions && w'.written == w.written
            && w'.replies == w.replies[1..] && w'.stdout == w.stdout && w'.stderr == w.stderr
  {
  }

  lemma DoTakeReply(s: Session)
    requires Possible(s, PollReply)
    ensures Enabled(s.world, ClientTakesReply) && s.pc.Polling? && s.world.replies != []
    ensures Do(s, PollReply) ==
            s.(pc := s.pc.(drain := true, response := Some(s.world.replies[0])),
               world := Next(s.world, ClientTakesReply))
  {
  }

  lemma TakeReplyKeeps(s: Session)
    requires SessionInv(s) && Possible(s, PollReply)
    ensures SessionInv(Do(s, PollReply))
  {
    hide *;
    DoTakeReply(s);
    Disassemble(s);
    StepKeepsInv(s.world, EXECUTOR_ID, ClientTakesReply);
    TakeReplyEffect(s.world);
    ReplyMoves(s.pc, |s.outcomes|, s.world, s.stdinFile, s.testcases);
    Assemble(Do(s, PollReply));
  }

  lemma ReplyMoves(pc: CallPc, n: nat, w: World, stdinFile: seq<Byte>, testcases: seq<seq<Byte>>)
    requires pc.Polling? && w.replies != [] && ReplyOk(pc, n, w.replies, w.written)
    requires OutputOk(pc, n, w.executions, w.stdout, w.stderr) && FileOk(pc, n, stdinFile, testcases)
    ensures var pc' := pc.(drain := true, response := Some(w.replies[0]));
            && ReplyOk(pc', n, w.replies[1..], w.written)
            && OutputOk(pc', n, w.executions, w.stdout, w.stderr) && FileOk(pc', n, stdinFile, testcases)
  {
  }

  lemma FinishKeeps(s: Session)
    requires SessionInv(s) && Possible(s, PollNothing)
    ensures SessionInv(Do(s, PollNothing))
  {
    hide Next, Enabled, Inv, Script, AllPlain;
    DaemonProgress(s.world, Calls(s));
    assert s.pc.out + [] == s.pc.out && s.pc.err + [] == s.pc.err;
    assert Returned(Outcome(s.pc.response, s.pc.out, s.pc.err), s.world.executions[|s.outcomes|]);
  }

  lemma MoveKeepsInv(s: Session, m: Move)
    requires SessionInv(s) && Possible(s, m)
    ensures SessionInv(Do(s, m))
  {
    hide SessionInv, Next, Enabled;
    match m
    case Environment(step) =>
      match step {
        case DaemonForks(pid) => ForkKeeps(s, pid);
        case ChildWrites(pid, toStdout, bytes) => WriteKeeps(s, pid, toStdout, bytes);
        case DaemonReplies => ReplyKeeps(s);
        case DaemonReaps => ReapKeeps(s);
        case _ => SilentKeeps(s, step);
      }
    case SendExecute => SendKeeps(s);
    case PollStdout(_) => TakeOutputKeeps(s, m);
    case PollStderr(_) => TakeOutputKeeps(s, m);
    case PollReply => TakeReplyKeeps(s);
    case PollNothing => FinishKeeps(s);
    case PollInterrupted => InterruptKeeps(s);
    case _ => FileStepKeeps(s, m);
  }

  lemma InterruptKeeps(s: Session)
    requires SessionInv(s) && Possible(s, PollInterrupted)
    ensures SessionInv(Do(s, PollInterrupted))
  {
  }

  lemma {:induction false} AlwaysSessionInv(oldFile: seq<Byte>, moves: seq<Move>)
    requires Play(Start(oldFile), moves).Some?
    ensures SessionInv(Play(Start(oldFile), moves).value)
  {
    hide SessionInv, Do, Possible, Start;
    if moves == [] {
      StartInv(oldFile);
    } else {
      AlwaysSessionInv(oldFile, moves[..|moves| - 1]);
      MoveKeepsInv(Play(Start(oldFile), moves[..|moves| - 1]).value, moves[|moves| - 1]);
    }
  }

  // ----- main results -----

  /** A call returned how its child ended, field by field, and everything the child wrote. */
  ghost predicate ReturnedEnd(o: Outcome, e: Execution, ended: map<nat, Status>)
  {
    && e.pid in ended && o.out == e.out && o.err == e.err
    && o.response.Some? && o.response.value.error == 0
    && var end := ended[e.pid];
       if end.ExitedWith? then o.response.value.exitCode == end.code && o.response.value.signalNumber == 0
       else o.response.value.exitCode == end.signal == o.response.value.signalNumber
  }

  /** Output conservation: for every interleaving, the k-th call returns how the k-th child ended
      and exactly the bytes that child wrote to each pipe, in order; when no call is under way the
      pipes are empty, so nothing is lost or carried into the next call. */
  lemma OutputIsConserved(oldFile: seq<Byte>, moves: seq<Move>)
    requires Play(Start(oldFile), moves).Some?
    ensures var s := Play(Start(oldFile), moves).value;
            && |s.outcomes| <= |s.world.executions|
            && (forall k :: 0 <= k < |s.outcomes| ==>
                  ReturnedEnd(s.outcomes[k], s.world.executions[k], s.world.ended))
            && (!s.pc.Polling? ==>
                  s.world.stdout == [] && s.world.stderr == [] && s.world.replies == [] &&
                  |s.world.executions| == |s.outcomes|)
  {
    AlwaysSessionInv(oldFile, moves);
    var s := Play(Start(oldFile), moves).value;
    DaemonProgress(s.world, Calls(s));
  }

  /** Every child runs under the executor's id, which is 1, with 20 ms, reading standard input from the
      file and writing to the pipes. */
  lemma ChildrenRunUnder(oldFile: seq<Byte>, moves: seq<Move>)
    requires Play(Start(oldFile), moves).Some?
    ensures var es := Play(Start(oldFile), moves).value.world.executions;
            forall k :: 0 <= k < |es| ==> es[k].settings == Settings(1, 20_000, true, false)
  {
    AlwaysSessionInv(oldFile, moves);
    var w := Play(Start(oldFile), moves).value.world;
    assert ExecutionsOk(w, EXECUTOR_ID) && FramingOk(w) && w.sent == Script(Calls(Play(Start(oldFile), moves).value));
    hide *;
    ScriptSettings(w, Calls(Play(Start(oldFile), moves).value));
  }

  lemma ScriptSettings(w: World, calls: nat)
    requires ExecutionsOk(w, EXECUTOR_ID) && FramingOk(w) && w.sent == Script(calls)
    ensures forall k :: 0 <= k < |w.executions| ==> w.executions[k].settings == Settings(1, 20_000, true, false)
  {
    hide *;
    WholeScript(calls);
    ExecutionsAreDue(w, EXECUTOR_ID);
  }

  lemma WholeScript(calls: nat)
    ensures var due := Executions(DefaultSettings(EXECUTOR_ID), Script(calls));
            forall k :: 0 <= k < |due| ==> due[k] == Settings(1, 20_000, true, false)
  {
    assert Script(calls)[..calls + 1] == Script(calls);
    ScriptExecutions(calls, calls + 1);
    hide Executions, Fold, Script;
  }

  /** Stdin stability: while a child exists, it is the child of the latest call, it reads standard
      input from the file, and the file holds exactly that call's input, whatever was there before. */
  lemma StdinIsStable(oldFile: seq<Byte>, moves: seq<Move>)
    requires Play(Start(oldFile), moves).Some?
    ensures var s := Play(Start(oldFile), moves).value;
            s.world.procs != map[] ==>
              && s.pc.Polling? && |s.testcases| == |s.outcomes| + 1 == |s.world.executions|
              && s.world.procs.Keys == {s.world.executions[|s.outcomes|].pid}
              && s.world.executions[|s.outcomes|].settings.readStdin
              && s.stdinFile == s.testcases[|s.outcomes|]
  {
    AlwaysSessionInv(oldFile, moves);
    var s := Play(Start(oldFile), moves).value;
    DaemonProgress(s.world, Calls(s));
    hide Inv, Script, OutputOk, OutcomesOk;
    if s.world.procs != map[] {
      ChildMeansPolling(s);
      assert PlainExecution(s.world.executions[|s.world.executions| - 1]);
    }
  }
}
