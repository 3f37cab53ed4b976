/** The fork server as a state machine: an arbitrary client, the command pipe, the daemon, the
    processes it forks, the one-shot timer with its signal handler, and the reply pipe.
    Any interleaving of the steps below is a run. */
module ForkServer {
  import opened Bits
  import opened Framing
  import opened Prelude

  const SIGKILL: nat := 9

  /** How a process ended, as `waitpid` reports it. */
  datatype Status = ExitedWith(code: nat) | KilledBy(signal: nat)

  datatype Life = Alive | Stopped | Zombie(status: Status)

  /** A process that has not been reaped. A stop is reported to `waitpid` once. */
  datatype Process = Process(life: Life, stopUnreported: bool)

  datatype Response = Response(error: nat, exitCode: nat, signalNumber: nat)

  /** The reply the daemon builds from a wait status. */
  function ResponseOf(st: Status): Response
  {
    match st
    case ExitedWith(code) => Response(0, code, 0)
    case KilledBy(signal) => Response(0, signal, signal)
  }

  /** How a client reads the reply. */
  function StatusFrom(r: Response): Status
  {
    if r.signalNumber != 0 then KilledBy(r.signalNumber) else ExitedWith(r.exitCode)
  }

  /** The reply's three fields for either way to end: no error, the exit code or else the signal number
      as exit code, and the signal number or zero. Signal numbers start at one, so the reply tells
      exactly how the child ended. */
  lemma ReplyTellsStatus(st: Status)
    ensures ResponseOf(st).error == 0
    ensures st.ExitedWith? ==> ResponseOf(st).exitCode == st.code && ResponseOf(st).signalNumber == 0
    ensures st.KilledBy? ==> ResponseOf(st).exitCode == st.signal == ResponseOf(st).signalNumber
    ensures st.ExitedWith? || st.signal > 0 ==> StatusFrom(ResponseOf(st)) == st
  {
  }

  /** Where the daemon is. The byte lists are what the reading loops hold so far. */
  datatype Pc =
    | ReadingCommand(got: seq<Byte>)
    | ReadingTimeout(got: seq<Byte>)
    | Forking
    | StoringPid(pid: nat)
    | Arming
    | Waiting
    | Replying(response: Response)

  /** History of one ExecutePUT: the child, the settings it was forked under, what it wrote to
      the inherited standard output and error, and how it ended once reaped. */
  datatype Execution = Execution(pid: nat, settings: Settings, out: seq<Byte>, err: seq<Byte>, status: Option<Status>)

  datatype World = World(
    toDaemon: seq<Byte>,          // command pipe
    pc: Pc, settings: Settings, putPid: nat,
    timer: nat, alarm: bool,      // remaining time, 0 when disarmed; SIGALRM pending
    procs: map<nat, Process>, usedPids: set<nat>,
    stdout: seq<Byte>, stderr: seq<Byte>,   // output pipes
    replies: seq<Response>,       // reply pipe
    // history; `ended` is written where a process dies and nowhere else
    ended: map<nat, Status>,
    sent: seq<Command>, done: seq<Command>, executions: seq<Execution>, written: seq<Response>)

  function Init(executorId: nat): World
  {
    World([], ReadingCommand([]), DefaultSettings(executorId), 0, 0, false, map[], {},
          [], [], [], map[], [], [], [], [])
  }

  datatype Step =
    | ClientSends(command: Command)
    | ClientTakesReply
    | ClientTakesOutput(fromStdout: bool, count: nat)
    | DaemonReads(count: nat)
    | DaemonDispatches
    | DaemonForks(newPid: nat)
    | DaemonStoresPid
    | DaemonArms
    | DaemonSeesStop
    | DaemonReaps
    | DaemonReplies
    | CallInterrupted
    | TimerTicks
    | AlarmDelivered
    | ChildStops(pid: nat)
    | ChildContinues(pid: nat)
    | ChildExits(pid: nat, code: nat)
    | ChildDies(pid: nat, signal: nat)
    | ChildWrites(pid: nat, toStdout: bool, bytes: seq<Byte>)

  predicate IsAlive(w: World, pid: nat)
  {
    pid in w.procs && w.procs[pid].life == Alive
  }

  predicate IsRunning(w: World, pid: nat)
  {
    pid in w.procs && !w.procs[pid].life.Zombie?
  }

  predicate IsZombie(w: World, pid: nat)
  {
    pid in w.procs && w.procs[pid].life.Zombie?
  }

  predicate Enabled(w: World, s: Step)
  {
    match s
    case ClientSends(c) => c.Valid()
    case ClientTakesReply => w.replies != []
    case ClientTakesOutput(fromStdout, n) => n <= |if fromStdout then w.stdout else w.stderr|
    case DaemonReads(n) =>
      match w.pc {
        case ReadingCommand(got) => 0 < n <= 4 - |got| && n <= |w.toDaemon|
        case ReadingTimeout(got) => 0 < n <= 8 - |got| && n <= |w.toDaemon|
        case _ => false
      }
    case DaemonDispatches =>
      match w.pc {
        case ReadingCommand(got) => |got| == 4
        case ReadingTimeout(got) => |got| == 8
        case _ => false
      }
    case DaemonForks(pid) => w.pc.Forking? && pid > 0 && pid !in w.usedPids
    case DaemonStoresPid => w.pc.StoringPid?
    case DaemonArms => w.pc.Arming?
    case DaemonSeesStop => w.pc.Waiting? && w.putPid in w.procs && w.procs[w.putPid].stopUnreported
    case DaemonReaps => w.pc.Waiting? && IsZombie(w, w.putPid)
    case DaemonReplies => w.pc.Replying?
    case CallInterrupted => w.pc.ReadingCommand? || w.pc.ReadingTimeout? || w.pc.Waiting?
    case TimerTicks => w.timer > 0
    case AlarmDelivered => w.alarm
    case ChildStops(pid) => IsAlive(w, pid)
    case ChildContinues(pid) => pid in w.procs && w.procs[pid].life == Stopped
    case ChildExits(pid, code) => IsAlive(w, pid) && code < 256
    case ChildDies(pid, signal) => IsRunning(w, pid) && 0 < signal < 128
    case ChildWrites(pid, _, _) => IsAlive(w, pid)
  }

  /** The command loop's switch, entered with a complete header. */
  function Dispatch(w: World, code: nat): World
  {
    if code == SET_TIMEOUT_CODE then w.(pc := ReadingTimeout([]))
    else
      var c := FromCode(code);
      w.(pc := if c.Execute? then Forking else ReadingCommand([]),
         settings := Apply(w.settings, c), done := w.done + [c])
  }

  /** A process ends: it becomes a zombie, and its end is on record. */
  function Die(w: World, pid: nat, st: Status): World
  {
    w.(procs := w.procs[pid := Process(Zombie(st), false)], ended := w.ended[pid := st])
  }

  /** The SIGALRM handler: cancel the timer and kill whatever `put_pid` names, if it still runs. */
  function HandleAlarm(w: World): World
  {
    var w' := if IsRunning(w, w.putPid) then Die(w, w.putPid, KilledBy(SIGKILL)) else w;
    w'.(alarm := false, timer := 0)
  }

  /** The latest execution that pid belongs to. */
  function ExecutionOf(es: seq<Execution>, pid: nat): (r: Option<nat>)
    ensures r.Some? ==> r.value < |es| && es[r.value].pid == pid
  {
    if es == [] then None
    else if es[|es| - 1].pid == pid then Some(|es| - 1)
    else ExecutionOf(es[..|es| - 1], pid)
  }

  /** The history of the writer's execution, if it is one. */
  function Attribute(es: seq<Execution>, k: Option<nat>, toStdout: bool, bytes: seq<Byte>): (r: seq<Execution>)
    requires k.Some? ==> k.value < |es|
    ensures |r| == |es|
    ensures forall i :: 0 <= i < |es| ==>
              r[i].pid == es[i].pid && r[i].settings == es[i].settings && r[i].status == es[i].status
  {
    if k.None? then es
    else
      var e := es[k.value];
      es[k.value := if toStdout then e.(out := e.out + bytes) else e.(err := e.err + bytes)]
  }

  /** Whoever writes, the bytes join the inherited pipe, unless the writer was forked under settings
      that redirect its output to a file. */
  function Output(w: World, pid: nat, toStdout: bool, bytes: seq<Byte>): World
  {
    var k := ExecutionOf(w.executions, pid);
    if k.Some? && w.executions[k.value].settings.saveOutput then w
    else
      w.(stdout := w.stdout + (if toStdout then bytes else []),
         stderr := w.stderr + (if toStdout then [] else bytes),
         executions := Attribute(w.executions, k, toStdout, bytes))
  }

  function SetLife(w: World, pid: nat, life: Life, stopUnreported: bool): World
  {
    w.(procs := w.procs[pid := Process(life, stopUnreported)])
  }

  function Next(w: World, s: Step): World
    requires Enabled(w, s)
  {
    match s
    case ClientSends(c) => w.(toDaemon := w.toDaemon + Encode(c), sent := w.sent + [c])
    case ClientTakesReply => w.(replies := w.replies[1..])
    case ClientTakesOutput(fromStdout, n) =>
      if fromStdout then w.(stdout := w.stdout[n..]) else w.(stderr := w.stderr[n..])
    case DaemonReads(n) =>
      w.(toDaemon := w.toDaemon[n..], pc := w.pc.(got := w.pc.got + w.toDaemon[..n]))
    case DaemonDispatches =>
      if w.pc.ReadingCommand? then Dispatch(w, FromLE(w.pc.got))
      else
        var c := SetTimeout(FromLE(w.pc.got));
        w.(pc := ReadingCommand([]), settings := Apply(w.settings, c), done := w.done + [c])
    case DaemonForks(pid) =>
      w.(pc := StoringPid(pid), procs := w.procs[pid := Process(Alive, false)], usedPids := w.usedPids + {pid},
         executions := w.executions + [Execution(pid, w.settings, [], [], None)])
    case DaemonStoresPid => w.(pc := Arming, putPid := w.pc.pid)
    case DaemonArms => w.(pc := Waiting, timer := w.settings.timeoutUs)
    case DaemonSeesStop => SetLife(w, w.putPid, w.procs[w.putPid].life, false)
    case DaemonReaps =>
      var st := w.procs[w.putPid].life.status;
      var n := |w.executions|;
      w.(pc := Replying(ResponseOf(st)), procs := w.procs - {w.putPid},
         executions := if n == 0 then [] else w.executions[n - 1 := w.executions[n - 1].(status := Some(st))])
    case DaemonReplies =>
      w.(pc := ReadingCommand([]), replies := w.replies + [w.pc.response], written := w.written + [w.pc.response])
    case CallInterrupted => w
    case TimerTicks => w.(timer := w.timer - 1, alarm := w.alarm || w.timer == 1)
    case AlarmDelivered => HandleAlarm(w)
    case ChildStops(pid) => SetLife(w, pid, Stopped, true)
    case ChildContinues(pid) => SetLife(w, pid, Alive, false)
    case ChildExits(pid, code) => Die(w, pid, ExitedWith(code))
    case ChildDies(pid, signal) => Die(w, pid, KilledBy(signal))
    case ChildWrites(pid, toStdout, bytes) => Output(w, pid, toStdout, bytes)
  }

  /** The state after the given steps, if every one of them was possible. */
  function After(w: World, steps: seq<Step>): Option<World>
  {
    if steps == [] then Some(w)
    else
      var u := After(w, steps[..|steps| - 1]);
      var s := steps[|steps| - 1];
      if u.Some? && Enabled(u.value, s) then Some(Next(u.value, s)) else None
  }

  // ----- the invariant -----

  /** Bytes of the command being read. */
  function Partial(pc: Pc): seq<Byte>
  {
    match pc
    case ReadingCommand(got) => got
    case ReadingTimeout(got) => ToLE(SET_TIMEOUT_CODE, 4) + got
    case _ => []
  }

  /** The bytes in flight continue exactly the commands processed so far. */
  ghost predicate FramingOk(w: World)
  {
    && AllValid(w.sent) && w.done <= w.sent
    && EncodeAll(w.sent[|w.done|..]) == Partial(w.pc) + w.toDaemon
    && (w.pc.ReadingCommand? ==> |w.pc.got| <= 4)
    && (w.pc.ReadingTimeout? ==> |w.pc.got| <= 8)
  }

  /** A child is being executed. */
  predicate Busy(pc: Pc)
  {
    pc.StoringPid? || pc.Arming? || pc.Waiting?
  }

  function SettingsOf(es: seq<Execution>): (r: seq<Settings>)
    ensures |r| == |es|
  {
    seq(|es|, i requires 0 <= i < |es| => es[i].settings)
  }

  /** Replies due for the children that have been reaped. */
  ghost predicate RepliesMatch(es: seq<Execution>, rs: seq<Response>)
  {
    |rs| == |es| && forall i :: 0 <= i < |es| ==> es[i].status.Some? && rs[i] == ResponseOf(es[i].status.value)
  }

  /** One execution per Execute command, under the settings folded up to it, answered in order;
      the child of the current one is the only process left. */
  ghost predicate ExecutionsOk(w: World, id: nat)
  {
    && w.settings == Fold(DefaultSettings(id), w.done)
    && Executions(DefaultSettings(id), w.done) ==
       SettingsOf(w.executions) + (if w.pc.Forking? then [w.settings] else [])
    && (if Busy(w.pc) then
          && |w.executions| > 0
          && var n := |w.executions| - 1;
          && w.executions[n].status.None?
          && RepliesMatch(w.executions[..n], w.written)
          && w.procs.Keys == {w.executions[n].pid}
          && w.executions[n].settings == w.settings
          && (w.pc.StoringPid? ==> w.pc.pid == w.executions[n].pid)
          && (!w.pc.StoringPid? ==> w.putPid == w.executions[n].pid)
        else
          && w.procs == map[]
          && RepliesMatch(w.executions, if w.pc.Replying? then w.written + [w.pc.response] else w.written))
  }

  /** Pids are never reused. */
  ghost predicate PidsOk(w: World)
  {
    && (forall i :: 0 <= i < |w.executions| ==> w.executions[i].pid in w.usedPids)
    && (forall i, j :: 0 <= i < j < |w.executions| ==> w.executions[i].pid != w.executions[j].pid)
  }

  /** While a child runs under a non-zero timeout, its death is on the way. */
  ghost predicate TimerOk(w: World)
  {
    w.pc.Waiting? && w.settings.timeoutUs > 0 ==> w.timer > 0 || w.alarm || IsZombie(w, w.putPid)
  }

  /** Zombies carry the end on record, running processes have none, and an execution's status is the
      end of its own process, which has been reaped. */
  ghost predicate EndsOk(w: World)
  {
    && w.ended.Keys <= w.usedPids && w.procs.Keys <= w.usedPids
    && (forall p :: IsZombie(w, p) ==> p in w.ended && w.ended[p] == w.procs[p].life.status)
    && (forall p :: IsRunning(w, p) ==> p !in w.ended)
    && forall k :: 0 <= k < |w.executions| ==> EndIsRecorded(w, w.executions[k])
  }

  ghost predicate EndIsRecorded(w: World, e: Execution)
  {
    e.status.Some? ==> e.pid in w.ended && e.status.value == w.ended[e.pid] && e.pid !in w.procs
  }

  ghost predicate Inv(w: World, id: nat)
  {
    FramingOk(w) && ExecutionsOk(w, id) && PidsOk(w) && TimerOk(w) && EndsOk(w)
  }

  lemma InitInv(id: nat)
    ensures Inv(Init(id), id)
  {
  }

  // ----- preservation, one concern at a time -----

  lemma ReadGrowsPartial(w: World, n: nat)
    requires FramingOk(w) && Enabled(w, DaemonReads(n))
    ensures var pc := Next(w, DaemonReads(n)).pc;
            && Partial(pc) == Partial(w.pc) + w.toDaemon[..n]
            && (pc.ReadingCommand? ==> |pc.got| <= 4) && (pc.ReadingTimeout? ==> |pc.got| <= 8)
  {
    hide EncodeAll, AllValid, ToLE;
  }

  lemma ReadKeepsFraming(w: World, n: nat)
    requires FramingOk(w) && Enabled(w, DaemonReads(n))
    ensures FramingOk(Next(w, DaemonReads(n)))
  {
    var w' := Next(w, DaemonReads(n));
    assert w.toDaemon == w.toDaemon[..n] + w.toDaemon[n..];
    ReadGrowsPartial(w, n);
    assert w'.sent == w.sent && w'.done == w.done && w'.toDaemon == w.toDaemon[n..];
    hide EncodeAll, Partial, Next, Enabled, AllValid;
    Associative(Partial(w.pc), w.toDaemon[..n], w.toDaemon[n..]);
  }

  lemma SendKeepsFraming(w: World, c: Command)
    requires FramingOk(w) && c.Valid()
    ensures FramingOk(Next(w, ClientSends(c)))
  {
    var rest := w.sent[|w.done|..];
    SentSoFar(w.sent, w.done, c);
    EncodeOneMore(rest, c);
    hide EncodeAll, Encode, Partial, Command.Valid, Command.Code;
    Associative(Partial(w.pc), w.toDaemon, Encode(c));
  }

  lemma SentSoFar(sent: seq<Command>, done: seq<Command>, c: Command)
    requires done <= sent
    ensures done <= sent + [c] && (sent + [c])[|done|..] == sent[|done|..] + [c]
  {
  }

  lemma EncodeOneMore(cs: seq<Command>, c: Command)
    ensures EncodeAll(cs + [c]) == EncodeAll(cs) + Encode(c)
  {
    assert (cs + [c])[..|cs|] == cs;
    hide Encode;
  }

  /** A complete command in the reader's hands is the next one sent. */
  lemma NextCommand(cs: seq<Command>, got: seq<Byte>, tail: seq<Byte>, c: Command, n: nat)
    requires AllValid(cs) && EncodeAll(cs) == got + tail
    requires DecodeOne(got + tail) == Some((c, n)) && n == |got|
    ensures cs != [] && cs[0] == c && EncodeAll(cs[1..]) == tail
  {
    assert cs != [];
    assert [cs[0]] + cs[1..] == cs;
    EncodeAllCons(cs[0], cs[1..]);
    DecodeEncode(cs[0], EncodeAll(cs[1..]));
    assert (got + tail)[n..] == tail;
    assert (Encode(cs[0]) + EncodeAll(cs[1..]))[n..] == EncodeAll(cs[1..]);
  }

  lemma AdvanceFraming(w: World, w': World, c: Command)
    requires FramingOk(w) && |w.done| < |w.sent| && w.sent[|w.done|] == c
    requires EncodeAll(w.sent[|w.done|..][1..]) == w.toDaemon
    requires w'.sent == w.sent && w'.toDaemon == w.toDaemon && w'.done == w.done + [c]
    requires Partial(w'.pc) == [] && !w'.pc.ReadingTimeout? && (w'.pc.ReadingCommand? ==> w'.pc.got == [])
    ensures FramingOk(w')
  {
    OneMore(w.sent, w.done, c);
    hide EncodeAll, AllValid;
  }

  lemma OneMore(sent: seq<Command>, done: seq<Command>, c: Command)
    requires done <= sent && |done| < |sent| && sent[|done|] == c
    ensures done + [c] <= sent && sent[|done|..][1..] == sent[|done + [c]|..]
  {
  }

  /** The effect on the commands of a complete payload, a timeout header and any other header. */
  predicate TakesNext(w: World, w': World)
  {
    w'.done == w.done || (|w.done| < |w.sent| && w'.done == w.done + [w.sent[|w.done|]])
  }

  lemma PayloadKeepsFraming(w: World)
    requires FramingOk(w) && Enabled(w, DaemonDispatches) && w.pc.ReadingTimeout?
    ensures FramingOk(Next(w, DaemonDispatches)) && TakesNext(w, Next(w, DaemonDispatches))
  {
    var w', got := Next(w, DaemonDispatches), w.pc.got;
    var c := SetTimeout(FromLE(got));
    assert w'.sent == w.sent && w'.toDaemon == w.toDaemon && w'.done == w.done + [c] && w'.pc == ReadingCommand([]);
    hide Next, EncodeAll, Encode, FromLE, ToLE, Apply;
    TimeoutDecodes(got, w.toDaemon);
    NextCommand(w.sent[|w.done|..], ToLE(SET_TIMEOUT_CODE, 4) + got, w.toDaemon, c, 12);
    AdvanceFraming(w, w', c);
  }

  lemma HeaderKeepsFraming(w: World)
    requires FramingOk(w) && Enabled(w, DaemonDispatches) && w.pc.ReadingCommand?
    requires FromLE(w.pc.got) != SET_TIMEOUT_CODE
    ensures FramingOk(Next(w, DaemonDispatches)) && TakesNext(w, Next(w, DaemonDispatches))
  {
    var w', got := Next(w, DaemonDispatches), w.pc.got;
    var c := FromCode(FromLE(got));
    assert w'.sent == w.sent && w'.toDaemon == w.toDaemon && w'.done == w.done + [c];
    assert w'.pc == if c.Execute? then Forking else ReadingCommand([]);
    hide Next, EncodeAll, Encode, FromLE, Apply;
    assert (got + w.toDaemon)[..4] == got;
    NextCommand(w.sent[|w.done|..], got, w.toDaemon, c, 4);
    AdvanceFraming(w, w', c);
  }

  lemma DispatchKeepsFraming(w: World)
    requires FramingOk(w) && Enabled(w, DaemonDispatches)
    ensures FramingOk(Next(w, DaemonDispatches)) && TakesNext(w, Next(w, DaemonDispatches))
  {
    if w.pc.ReadingTimeout? {
      PayloadKeepsFraming(w);
    } else if FromLE(w.pc.got) == SET_TIMEOUT_CODE {
      ToFromLE(w.pc.got);
      assert ToLE(SET_TIMEOUT_CODE, 4) + [] == w.pc.got;
      hide EncodeAll, FromLE, ToLE, Encode;
    } else {
      HeaderKeepsFraming(w);
    }
  }

  lemma TimeoutDecodes(got: seq<Byte>, tail: seq<Byte>)
    requires |got| == 8
    ensures DecodeOne(ToLE(SET_TIMEOUT_CODE, 4) + got + tail) == Some((SetTimeout(FromLE(got)), 12))
  {
    var header := ToLE(SET_TIMEOUT_CODE, 4);
    var s := header + got + tail;
    Pow256Values();
    FromToLE(SET_TIMEOUT_CODE, 4);
    assert s[..4] == header && s[4..12] == got;
  }

  /** What dispatching a command does, apart from the bytes. */
  lemma DispatchEffect(w: World)
    requires Enabled(w, DaemonDispatches)
    ensures var w' := Next(w, DaemonDispatches);
            && w'.executions == w.executions && w'.written == w.written && w'.procs == w.procs
            && w'.usedPids == w.usedPids && !w'.pc.Replying? && !Busy(w'.pc)
            && (w'.done == w.done ==> w'.settings == w.settings && !w'.pc.Forking?)
            && (w'.done != w.done ==>
                  && |w'.done| == |w.done| + 1 && w'.done[..|w.done|] == w.done
                  && w'.settings == Apply(w.settings, w'.done[|w.done|])
                  && (w'.pc.Forking? <==> w'.done[|w.done|].Execute?))
  {
  }

  lemma DispatchKeepsExecutions(w: World, id: nat)
    requires ExecutionsOk(w, id) && PidsOk(w) && Enabled(w, DaemonDispatches)
    ensures ExecutionsOk(Next(w, DaemonDispatches), id) && PidsOk(Next(w, DaemonDispatches))
  {
    var w' := Next(w, DaemonDispatches);
    DispatchEffect(w);
    assert !w.pc.Forking? && !Busy(w.pc) && !w.pc.Replying?;
    hide Next, Enabled, PidsOk, RepliesMatch;
    assert SettingsOf(w.executions) + [] == SettingsOf(w.executions);
    var es := SettingsOf(w.executions);
    if w'.done != w.done {
      assert Executions(DefaultSettings(id), w'.done) ==
             es + (if w'.pc.Forking? then [w.settings] else []);
      assert w'.pc.Forking? ==> w'.settings == w.settings;
    }
  }

  lemma ForkKeepsExecutions(w: World, id: nat, pid: nat)
    requires ExecutionsOk(w, id) && PidsOk(w) && Enabled(w, DaemonForks(pid))
    ensures ExecutionsOk(Next(w, DaemonForks(pid)), id) && PidsOk(Next(w, DaemonForks(pid)))
  {
    var w' := Next(w, DaemonForks(pid));
    var e := Execution(pid, w.settings, [], [], None);
    assert w' == w.(pc := StoringPid(pid), procs := w'.procs, usedPids := w.usedPids + {pid},
                    executions := w.executions + [e]);
    assert w'.procs.Keys == {pid} && pid !in w.usedPids && w.pc.Forking?;
    hide Next, Enabled, Executions, Fold;
    assert w'.executions[..|w.executions|] == w.executions;
    assert SettingsOf(w'.executions) + [] == SettingsOf(w.executions) + [w.settings];
  }

  lemma ReapKeepsExecutions(w: World, id: nat)
    requires ExecutionsOk(w, id) && PidsOk(w) && Enabled(w, DaemonReaps)
    ensures ExecutionsOk(Next(w, DaemonReaps), id) && PidsOk(Next(w, DaemonReaps))
  {
    var w' := Next(w, DaemonReaps);
    var n := |w.executions| - 1;
    assert w'.procs.Keys == {};
    assert w'.procs == map[];
    assert SettingsOf(w'.executions) == SettingsOf(w.executions);
    assert forall i :: 0 <= i < n ==> w'.executions[i] == w.executions[..n][i];
  }

  /** Steps of the client, the timer and the processes. */
  predicate Quiet(s: Step)
  {
    s.ClientTakesReply? || s.ClientTakesOutput? || s.CallInterrupted? || s.TimerTicks? || s.AlarmDelivered? ||
    s.ChildStops? || s.ChildContinues? || s.ChildExits? || s.ChildDies? || s.DaemonSeesStop? || s.ChildWrites?
  }

  /** Writing changes pipes and histories only. */
  lemma OutputEffect(w: World, pid: nat, toStdout: bool, bytes: seq<Byte>)
    ensures var w' := Output(w, pid, toStdout, bytes);
            && w' == w.(stdout := w'.stdout, stderr := w'.stderr, executions := w'.executions)
            && |w'.executions| == |w.executions|
            && forall k :: 0 <= k < |w.executions| ==>
                 && w'.executions[k].pid == w.executions[k].pid
                 && w'.executions[k].settings == w.executions[k].settings
                 && w'.executions[k].status == w.executions[k].status
  {
    hide Attribute, ExecutionOf;
  }

  /** They leave the daemon's place, settings, commands and replies alone, and create or reap no process. */
  lemma QuietSteps(w: World, s: Step)
    requires Enabled(w, s) && Quiet(s)
    ensures var w' := Next(w, s);
            && w'.pc == w.pc && w'.settings == w.settings && w'.putPid == w.putPid && w'.usedPids == w.usedPids
            && w'.sent == w.sent && w'.done == w.done && w'.written == w.written && w'.toDaemon == w.toDaemon
            && w'.procs.Keys == w.procs.Keys
            && |w'.executions| == |w.executions|
            && forall i :: 0 <= i < |w.executions| ==>
                 && w'.executions[i].pid == w.executions[i].pid
                 && w'.executions[i].settings == w.executions[i].settings
                 && w'.executions[i].status == w.executions[i].status
  {
    if s.ChildWrites? {
      OutputEffect(w, s.pid, s.toStdout, s.bytes);
      hide Output, IsAlive;
    } else if s.AlarmDelivered? {
      AlarmEffect(w);
      hide HandleAlarm;
    } else if ChangesLife(s) {
      LifeEffect(w, s);
      hide *;
    } else {
      hide Encode, Dispatch, Output, Apply, ResponseOf, FromLE, HandleAlarm, Die, SetLife;
    }
  }

  lemma AlarmEffect(w: World)
    ensures var w' := HandleAlarm(w);
            && w' == w.(procs := w'.procs, ended := w'.ended, alarm := false, timer := 0)
            && w'.procs.Keys == w.procs.Keys
  {
    assert IsRunning(w, w.putPid) ==> w.putPid in w.procs;
    hide IsRunning;
  }

  predicate ChangesLife(s: Step)
  {
    s.ChildStops? || s.ChildContinues? || s.ChildExits? || s.ChildDies? || s.DaemonSeesStop?
  }

  lemma LifeEffect(w: World, s: Step)
    requires Enabled(w, s) && ChangesLife(s)
    ensures var w' := Next(w, s);
            w' == w.(procs := w'.procs, ended := w'.ended) && w'.procs.Keys == w.procs.Keys
  {
    hide Output, Dispatch, Apply, ResponseOf, Encode, HandleAlarm, FromLE;
  }

  lemma SameExecutionsOk(w: World, w': World, id: nat)
    requires ExecutionsOk(w, id) && PidsOk(w)
    requires w'.pc == w.pc && w'.settings == w.settings && w'.putPid == w.putPid && w'.usedPids == w.usedPids
    requires w'.done == w.done && w'.written == w.written && w'.procs.Keys == w.procs.Keys
    requires |w'.executions| == |w.executions|
    requires forall i :: 0 <= i < |w.executions| ==>
               && w'.executions[i].pid == w.executions[i].pid
               && w'.executions[i].settings == w.executions[i].settings
               && w'.executions[i].status == w.executions[i].status
    ensures ExecutionsOk(w', id) && PidsOk(w')
  {
    hide Executions, Fold;
    assert SettingsOf(w'.executions) == SettingsOf(w.executions);
    if Busy(w.pc) {
      var n := |w.executions| - 1;
      assert forall i :: 0 <= i < n ==> w'.executions[..n][i].status == w.executions[..n][i].status;
    } else {
      assert w'.procs.Keys == {};
      assert w'.procs == map[];
    }
  }

  lemma QuietKeepsExecutions(w: World, id: nat, s: Step)
    requires ExecutionsOk(w, id) && PidsOk(w) && Enabled(w, s) && Quiet(s)
    ensures ExecutionsOk(Next(w, s), id) && PidsOk(Next(w, s))
  {
    QuietSteps(w, s);
    hide *;
    SameExecutionsOk(w, Next(w, s), id);
  }

  lemma QuietKeepsTimer(w: World, s: Step)
    requires TimerOk(w) && Enabled(w, s) && Quiet(s)
    requires w.pc.Waiting? ==> w.procs.Keys == {w.putPid}
    ensures TimerOk(Next(w, s))
  {
  }

  lemma PlainDaemonStep(w: World, id: nat, s: Step)
    requires ExecutionsOk(w, id) && PidsOk(w) && TimerOk(w) && Enabled(w, s)
    requires s.DaemonStoresPid? || s.DaemonArms? || s.DaemonReplies? || s.DaemonReads? || s.ClientSends?
    ensures ExecutionsOk(Next(w, s), id) && PidsOk(Next(w, s)) && TimerOk(Next(w, s))
  {
    hide RepliesMatch, Executions, Fold, Encode, SettingsOf;
  }

  /** Every step of the daemon that takes part in an execution leaves the command bytes alone. */
  lemma ExecutionStepKeepsFraming(w: World, s: Step)
    requires FramingOk(w) && Enabled(w, s)
    requires s.DaemonForks? || s.DaemonStoresPid? || s.DaemonArms? || s.DaemonReaps? || s.DaemonReplies?
    ensures FramingOk(Next(w, s)) && (!s.DaemonArms? ==> !Next(w, s).pc.Waiting?)
  {
    hide EncodeAll;
  }

  lemma QuietKeepsFraming(w: World, s: Step)
    requires FramingOk(w) && Enabled(w, s) && Quiet(s)
    ensures FramingOk(Next(w, s))
  {
    QuietSteps(w, s);
    hide Next, Enabled, EncodeAll;
  }

  // ----- how processes end -----

  /** The step is the death of pid, with this status. */
  predicate Kills(w: World, s: Step, pid: nat, st: Status)
  {
    IsRunning(w, pid) &&
    match s
    case ChildExits(p, code) => p == pid && st == ExitedWith(code)
    case ChildDies(p, signal) => p == pid && st == KilledBy(signal)
    case AlarmDelivered => w.putPid == pid && st == KilledBy(9)
    case _ => false
  }

  /** The record of ends grows by exactly the step's deaths, and what it holds never changes. */
  lemma EndsAreDeaths(w: World, s: Step)
    requires EndsOk(w) && Enabled(w, s)
    ensures var w' := Next(w, s);
            && (forall p :: p in w.ended ==> p in w'.ended && w'.ended[p] == w.ended[p])
            && (forall p :: p in w'.ended && p !in w.ended ==> Kills(w, s, p, w'.ended[p]))
            && forall p, st :: Kills(w, s, p, st) ==> p !in w.ended && p in w'.ended && w'.ended[p] == st
  {
    EndsEffect(w, s);
    hide Next, Enabled, EndIsRecorded;
  }

  lemma EndsEffect(w: World, s: Step)
    requires Enabled(w, s)
    ensures Next(w, s).ended ==
            match s
            case ChildExits(pid, code) => w.ended[pid := ExitedWith(code)]
            case ChildDies(pid, signal) => w.ended[pid := KilledBy(signal)]
            case AlarmDelivered => if IsRunning(w, w.putPid) then w.ended[w.putPid := KilledBy(9)] else w.ended
            case _ => w.ended
    ensures s.ChildExits? || s.ChildDies? ==> IsRunning(w, s.pid)
  {
    if s.ChildWrites? {
      OutputEffect(w, s.pid, s.toStdout, s.bytes);
    }
    hide Output;
  }

  /** A stopped child does nothing until it is continued, but a signal still reaches it; its stop is
      reported to a waiting daemon, and once. */
  lemma StoppedChild(w: World, pid: nat)
    requires Enabled(w, ChildStops(pid))
    ensures var w' := Next(w, ChildStops(pid));
            && (forall code :: !Enabled(w', ChildExits(pid, code)))
            && (forall toStdout, bytes :: !Enabled(w', ChildWrites(pid, toStdout, bytes)))
            && IsRunning(w', pid) && Enabled(w', ChildContinues(pid))
            && Enabled(Next(w', ChildContinues(pid)), ChildExits(pid, 0))
            && (w.pc.Waiting? && pid == w.putPid ==>
                  Enabled(w', DaemonSeesStop) && !Enabled(Next(w', DaemonSeesStop), DaemonSeesStop))
  {
  }

  lemma DeathKeepsEnds(w: World, pid: nat, st: Status)
    requires EndsOk(w) && IsRunning(w, pid)
    ensures EndsOk(Die(w, pid, st))
  {
    var w' := Die(w, pid, st);
    forall k | 0 <= k < |w.executions|
      ensures EndIsRecorded(w', w.executions[k])
    {
      assert EndIsRecorded(w, w.executions[k]);
    }
  }

  lemma SameProcessKeepsEnds(w: World, pid: nat, life: Life, stopUnreported: bool)
    requires EndsOk(w) && pid in w.procs
    requires if life.Zombie? then w.procs[pid].life == life else IsRunning(w, pid)
    ensures EndsOk(SetLife(w, pid, life, stopUnreported))
  {
    var w' := SetLife(w, pid, life, stopUnreported);
    forall k | 0 <= k < |w.executions|
      ensures EndIsRecorded(w', w.executions[k])
    {
      assert EndIsRecorded(w, w.executions[k]);
    }
  }

  /** Steps that leave processes, their ends and the executions' pids and statuses alone. */
  lemma UntouchedKeepsEnds(w: World, w': World)
    requires EndsOk(w) && w'.procs == w.procs && w'.ended == w.ended && w'.usedPids == w.usedPids
    requires |w'.executions| == |w.executions|
    requires forall k :: 0 <= k < |w.executions| ==>
               w'.executions[k].pid == w.executions[k].pid && w'.executions[k].status == w.executions[k].status
    ensures EndsOk(w')
  {
    forall k | 0 <= k < |w'.executions|
      ensures EndIsRecorded(w', w'.executions[k])
    {
      assert EndIsRecorded(w, w.executions[k]);
    }
  }

  lemma ForkKeepsEnds(w: World, pid: nat)
    requires EndsOk(w) && PidsOk(w) && Enabled(w, DaemonForks(pid))
    ensures EndsOk(Next(w, DaemonForks(pid)))
  {
    var w' := Next(w, DaemonForks(pid));
    forall k | 0 <= k < |w'.executions|
      ensures EndIsRecorded(w', w'.executions[k])
    {
      assert k < |w.executions| ==> EndIsRecorded(w, w.executions[k]);
    }
  }

  /** What the daemon records when it reaps is the end on record. */
  lemma ReapKeepsEnds(w: World, id: nat)
    requires EndsOk(w) && ExecutionsOk(w, id) && Enabled(w, DaemonReaps)
    ensures EndsOk(Next(w, DaemonReaps))
  {
    var w' := Next(w, DaemonReaps);
    hide SettingsOf, RepliesMatch, Executions, Fold;
    forall k | 0 <= k < |w'.executions|
      ensures EndIsRecorded(w', w'.executions[k])
    {
      assert EndIsRecorded(w, w.executions[k]);
    }
  }

  lemma StepKeepsEnds(w: World, id: nat, s: Step)
    requires EndsOk(w) && ExecutionsOk(w, id) && PidsOk(w) && Enabled(w, s)
    ensures EndsOk(Next(w, s))
  {
    hide EndsOk, ExecutionsOk, PidsOk, Output;
    match s
    case DaemonForks(pid) => ForkKeepsEnds(w, pid);
    case DaemonReaps => ReapKeepsEnds(w, id);
    case ChildExits(pid, code) => DeathKeepsEnds(w, pid, ExitedWith(code));
    case ChildDies(pid, signal) => DeathKeepsEnds(w, pid, KilledBy(signal));
    case AlarmDelivered =>
      if IsRunning(w, w.putPid) {
        DeathKeepsEnds(w, w.putPid, KilledBy(SIGKILL));
        UntouchedKeepsEnds(Die(w, w.putPid, KilledBy(SIGKILL)), Next(w, s));
      } else {
        UntouchedKeepsEnds(w, Next(w, s));
      }
    case DaemonSeesStop => SameProcessKeepsEnds(w, w.putPid, w.procs[w.putPid].life, false);
    case ChildStops(pid) => SameProcessKeepsEnds(w, pid, Stopped, true);
    case ChildContinues(pid) => SameProcessKeepsEnds(w, pid, Alive, false);
    case ChildWrites(pid, toStdout, bytes) =>
      OutputEffect(w, pid, toStdout, bytes);
      UntouchedKeepsEnds(w, Next(w, s));
    case _ => UntouchedKeepsEnds(w, Next(w, s));
  }

  /** Every step keeps the invariant. */
  lemma StepKeepsInv(w: World, id: nat, s: Step)
    requires Inv(w, id) && Enabled(w, s)
    ensures Inv(Next(w, s), id)
  {
    StepKeepsEnds(w, id, s);
    hide EndsOk;
    if Quiet(s) {
      QuietKeepsFraming(w, s);
      QuietKeepsExecutions(w, id, s);
      BusyProcess(w, id);
      QuietKeepsTimer(w, s);
    } else if s.ClientSends? {
      SendKeepsFraming(w, s.command);
      PlainDaemonStep(w, id, s);
    } else if s.DaemonReads? {
      ReadKeepsFraming(w, s.count);
      PlainDaemonStep(w, id, s);
    } else if s.DaemonDispatches? {
      DispatchKeepsFraming(w);
      DispatchKeepsExecutions(w, id);
      DispatchEffect(w);
    } else {
      ExecutionStepKeepsFraming(w, s);
      if s.DaemonForks? {
        ForkKeepsExecutions(w, id, s.newPid);
      } else if s.DaemonReaps? {
        ReapKeepsExecutions(w, id);
      } else {
        PlainDaemonStep(w, id, s);
      }
    }
    hide Next, Enabled, FramingOk, ExecutionsOk, PidsOk;
  }

  lemma BusyProcess(w: World, id: nat)
    requires ExecutionsOk(w, id)
    ensures w.pc.Waiting? ==> w.procs.Keys == {w.putPid}
  {
  }

  /** Every reachable state satisfies the invariant. */
  lemma {:induction false} AlwaysInv(id: nat, steps: seq<Step>)
    requires After(Init(id), steps).Some?
    ensures Inv(After(Init(id), steps).value, id)
  {
    hide Inv, Next, Enabled;
    if steps == [] {
      InitInv(id);
    } else {
      AlwaysInv(id, steps[..|steps| - 1]);
      StepKeepsInv(After(Init(id), steps[..|steps| - 1]).value, id, steps[|steps| - 1]);
    }
  }

  // ----- what the invariant says to a client -----

  lemma {:induction false} ExecutionsGrow(s: Settings, cs: seq<Command>, ds: seq<Command>)
    requires cs <= ds
    ensures Executions(s, cs) <= Executions(s, ds)
    decreases |ds|
  {
    if |cs| < |ds| {
      ExecutionsGrow(s, cs, ds[..|ds| - 1]);
    } else {
      assert cs == ds;
    }
  }

  /** Main safety result, for every interleaving: executions correspond to Execute commands in
      order, each under the settings folded from the commands before it and with a process of its
      own; the k-th reply is how that very process ended, and comes after its end; at most one
      process is unreaped, and none while a command is awaited; and when nothing is in flight every
      Execute has been answered. */
  lemma OneReplyPerExecute(id: nat, steps: seq<Step>)
    requires After(Init(id), steps).Some?
    ensures var w := After(Init(id), steps).value;
            var due := Executions(DefaultSettings(id), w.sent);
            && |w.written| <= |w.executions| <= |due|
            && (forall k :: 0 <= k < |w.executions| ==> w.executions[k].settings == due[k])
            && (forall k :: 0 <= k < |w.written| ==>
                  && w.executions[k].pid in w.ended && w.written[k].error == 0
                  && var end := w.ended[w.executions[k].pid];
                     if end.ExitedWith? then w.written[k].exitCode == end.code && w.written[k].signalNumber == 0
                     else w.written[k].exitCode == end.signal == w.written[k].signalNumber)
            && (forall j, k :: 0 <= j < k < |w.executions| ==> w.executions[j].pid != w.executions[k].pid)
            && |w.procs| <= 1
            && (w.pc.ReadingCommand? || w.pc.ReadingTimeout? ==> w.procs == map[])
            && (w.pc == ReadingCommand([]) && w.toDaemon == [] ==> |w.written| == |w.executions| == |due|)
  {
    hide *;
    AlwaysInv(id, steps);
    var w := After(Init(id), steps).value;
    InvParts(w, id);
    RepliesAreEnds(w, id);
    ExecutionsAreDue(w, id);
    AtMostOneChild(w, id);
  }

  lemma InvParts(w: World, id: nat)
    requires Inv(w, id)
    ensures ExecutionsOk(w, id) && EndsOk(w) && FramingOk(w)
    ensures forall j, k :: 0 <= j < k < |w.executions| ==> w.executions[j].pid != w.executions[k].pid
    ensures w.pc == ReadingCommand([]) ==> !Busy(w.pc) && !w.pc.Replying?
  {
    hide ExecutionsOk, EndsOk, FramingOk;
  }

  lemma ExecutionsAreDue(w: World, id: nat)
    requires ExecutionsOk(w, id) && FramingOk(w)
    ensures var due := Executions(DefaultSettings(id), w.sent);
            && |w.executions| <= |due|
            && (forall k :: 0 <= k < |w.executions| ==> w.executions[k].settings == due[k])
            && (w.pc == ReadingCommand([]) && w.toDaemon == [] ==> |w.executions| == |due|)
  {
    ExecutionsGrow(DefaultSettings(id), w.done, w.sent);
    var es := SettingsOf(w.executions);
    assert forall k :: 0 <= k < |es| ==> es[k] == w.executions[k].settings;
    assert es <= Executions(DefaultSettings(id), w.done);
    hide Executions, Fold, SettingsOf, RepliesMatch, EncodeAll, AllValid;
    if w.pc == ReadingCommand([]) && w.toDaemon == [] {
      NothingPending(w.sent[|w.done|..]);
      assert w.done == w.sent;
    }
  }

  lemma AtMostOneChild(w: World, id: nat)
    requires ExecutionsOk(w, id)
    ensures |w.procs| <= 1 && (w.pc.ReadingCommand? || w.pc.ReadingTimeout? ==> w.procs == map[] && !Busy(w.pc))
  {
    hide Executions, Fold, SettingsOf, RepliesMatch;
    assert Busy(w.pc) ==> |w.procs.Keys| == 1;
  }

  /** Every reply written so far is the end of its execution's process. */
  lemma RepliesAreEnds(w: World, id: nat)
    requires ExecutionsOk(w, id) && EndsOk(w)
    ensures |w.written| <= |w.executions|
    ensures !Busy(w.pc) && !w.pc.Replying? ==> |w.written| == |w.executions|
    ensures forall k :: 0 <= k < |w.written| ==>
              && w.executions[k].pid in w.ended && w.written[k].error == 0
              && var end := w.ended[w.executions[k].pid];
                 if end.ExitedWith? then w.written[k].exitCode == end.code && w.written[k].signalNumber == 0
                 else w.written[k].exitCode == end.signal == w.written[k].signalNumber
  {
    hide SettingsOf, Executions, Fold;
    var es, rs := w.executions, w.written;
    if Busy(w.pc) {
      es := es[..|es| - 1];
    } else if w.pc.Replying? {
      rs := rs + [w.pc.response];
    }
    assert RepliesMatch(es, rs);
    forall k | 0 <= k < |w.written|
      ensures w.executions[k].pid in w.ended && w.written[k] == ResponseOf(w.ended[w.executions[k].pid])
    {
      assert es[k] == w.executions[k] && rs[k] == w.written[k];
      assert EndIsRecorded(w, w.executions[k]);
    }
  }

  /** What a process can exit with or die of. */
  predicate IsEnd(st: Status)
  {
    if st.ExitedWith? then st.code < 256 else 0 < st.signal < 128
  }

  lemma StepKeepsRealEnds(w: World, s: Step)
    requires Enabled(w, s) && forall p :: p in w.ended ==> IsEnd(w.ended[p])
    ensures forall p :: p in Next(w, s).ended ==> IsEnd(Next(w, s).ended[p])
  {
    if s.ChildWrites? {
      OutputEffect(w, s.pid, s.toStdout, s.bytes);
    }
    hide Output;
  }

  lemma {:induction false} EndsAreReal(id: nat, steps: seq<Step>)
    requires After(Init(id), steps).Some?
    ensures var w := After(Init(id), steps).value;
            forall p :: p in w.ended ==> IsEnd(w.ended[p])
  {
    if steps != [] {
      EndsAreReal(id, steps[..|steps| - 1]);
      StepKeepsRealEnds(After(Init(id), steps[..|steps| - 1]).value, steps[|steps| - 1]);
      hide Next, Enabled;
    }
  }

  /** So a client that looks at the signal number first reads every end from its reply, and sees an
      exit code below 256 or a signal from 1 to 127. */
  lemma ClientReadsEnds(id: nat, steps: seq<Step>, k: nat)
    requires After(Init(id), steps).Some? && k < |After(Init(id), steps).value.written|
    ensures var w := After(Init(id), steps).value;
            && k < |w.executions| && w.executions[k].pid in w.ended
            && StatusFrom(w.written[k]) == w.ended[w.executions[k].pid]
            && w.written[k].signalNumber < 128 && w.written[k].exitCode < 256
  {
    hide After, Init;
    OneReplyPerExecute(id, steps);
    EndsAreReal(id, steps);
  }

  lemma NothingPending(cs: seq<Command>)
    ensures EncodeAll(cs) == [] ==> cs == []
  {
    if cs != [] {
      assert |EncodeAll(cs)| >= |Encode(cs[|cs| - 1])| >= 4;
    }
  }

  // ----- redirected output -----

  predicate AllRedirected(es: seq<Execution>)
  {
    forall k :: 0 <= k < |es| ==> es[k].settings.saveOutput
  }

  lemma {:induction false} RedirectsAll(s: Settings, cs: seq<Command>)
    requires cs == [] || cs[0] == SaveOutput
    ensures forall k :: 0 <= k < |Executions(s, cs)| ==> Executions(s, cs)[k].saveOutput
  {
    if cs != [] {
      var before := cs[..|cs| - 1];
      RedirectsAll(s, before);
      FoldMeans(s, before);
      hide Fold;
    }
  }

  lemma RedirectedExecutions(w: World, id: nat)
    requires ExecutionsOk(w, id) && FramingOk(w) && (w.sent == [] || w.sent[0] == SaveOutput)
    ensures AllRedirected(w.executions)
  {
    RedirectsAll(DefaultSettings(id), w.sent);
    hide Executions, Fold, FramingOk, ExecutionsOk;
    ExecutionsAreDue(w, id);
  }

  lemma RedirectedWrite(w: World, id: nat, pid: nat, toStdout: bool, bytes: seq<Byte>)
    requires ExecutionsOk(w, id) && AllRedirected(w.executions) && Enabled(w, ChildWrites(pid, toStdout, bytes))
    ensures Next(w, ChildWrites(pid, toStdout, bytes)) == w
  {
    assert pid in w.procs.Keys;
    hide Executions, Fold, SettingsOf, RepliesMatch;
    assert w.executions[|w.executions| - 1].pid == pid;
  }

  lemma OnlyWritesFillPipes(w: World, s: Step)
    requires Enabled(w, s) && !s.ChildWrites? && w.stdout == [] && w.stderr == []
    ensures Next(w, s).stdout == [] && Next(w, s).stderr == []
  {
  }

  /** When the first command asks for it, all output goes to the files: whatever the children write, in
      every interleaving, the pipes stay empty. */
  lemma {:induction false} RedirectedOutputIsSilent(id: nat, steps: seq<Step>)
    requires After(Init(id), steps).Some?
    requires var sent := After(Init(id), steps).value.sent; sent == [] || sent[0] == SaveOutput
    ensures After(Init(id), steps).value.stdout == [] && After(Init(id), steps).value.stderr == []
  {
    if steps != [] {
      var u, s := After(Init(id), steps[..|steps| - 1]).value, steps[|steps| - 1];
      SentGrows(u, s);
      hide Init, Next, Enabled;
      RedirectedOutputIsSilent(id, steps[..|steps| - 1]);
      if s.ChildWrites? {
        AlwaysInv(id, steps[..|steps| - 1]);
        InvParts(u, id);
        RedirectedExecutions(u, id);
        RedirectedWrite(u, id, s.pid, s.toStdout, s.bytes);
      } else {
        OnlyWritesFillPipes(u, s);
      }
    }
  }

  lemma SentGrows(w: World, s: Step)
    requires Enabled(w, s)
    ensures w.sent <= Next(w, s).sent
  {
    if s.ChildWrites? {
      OutputEffect(w, s.pid, s.toStdout, s.bytes);
    }
    hide Output;
  }
}
