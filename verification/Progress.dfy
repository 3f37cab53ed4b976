/** Why every execution under a non-zero timeout ends with a reply, and why a zero timeout
    gives no such promise. */
module Progress {
  import opened Bits
  import opened ForkServer
  import opened Framing

  /** Between an Execute command and its reply. */
  predicate Executing(pc: Pc)
  {
    pc.Forking? || Busy(pc) || pc.Replying?
  }

  /** Steps that bring the reply nearer: the clock, the signal and the daemon itself. Stop reports,
      interrupted calls and whatever the child does are not among them. */
  predicate Useful(w: World, s: Step)
  {
    match s
    case TimerTicks => w.pc.Waiting? && !IsZombie(w, w.putPid)
    case AlarmDelivered => w.pc.Waiting? && !IsZombie(w, w.putPid)
    case DaemonForks(_) => true
    case DaemonStoresPid => true
    case DaemonArms => true
    case DaemonReaps => true
    case DaemonReplies => true
    case _ => false
  }

  /** How many useful steps may still come before the reply. */
  function Measure(w: World): nat
  {
    var t := 2 * w.settings.timeoutUs;
    match w.pc
    case Forking => t + 8
    case StoringPid(_) => t + 7
    case Arming => t + 6
    case Waiting => if IsZombie(w, w.putPid) then 2 else 2 * w.timer + 3 + (if w.alarm then 1 else 0)
    case Replying(_) => 1
    case _ => 0
  }

  lemma QuietMeasure(w: World, id: nat, s: Step)
    requires Inv(w, id) && Enabled(w, s) && Executing(w.pc) && Quiet(s)
    ensures Measure(Next(w, s)) + (if Useful(w, s) then 1 else 0) <= Measure(w)
  {
    hide Next, Enabled, Inv;
    AwaitedChildExists(w, id);
    QuietSteps(w, s);
    QuietTimer(w, s);
  }

  lemma AwaitedChildExists(w: World, id: nat)
    requires Inv(w, id)
    ensures w.pc.Waiting? ==> w.putPid in w.procs
  {
    BusyProcess(w, id);
    assert w.pc.Waiting? ==> w.putPid in w.procs.Keys;
  }

  /** What quiet steps do to the clock, the signal and the life of the awaited child. */
  lemma QuietTimer(w: World, s: Step)
    requires Enabled(w, s) && Quiet(s)
    ensures var w' := Next(w, s);
            && (IsZombie(w, w.putPid) ==> IsZombie(w', w.putPid))
            && (s.TimerTicks? ==> w.timer > 0 && w'.timer == w.timer - 1 && w'.alarm == (w.alarm || w.timer == 1))
            && (s.AlarmDelivered? ==> w.alarm && !w'.alarm && w'.timer == 0)
            && (s.AlarmDelivered? && IsRunning(w, w.putPid) ==> IsZombie(w', w.putPid))
            && (!s.TimerTicks? && !s.AlarmDelivered? ==> w'.timer == w.timer && w'.alarm == w.alarm)
  {
    if s.ChildWrites? {
      OutputEffect(w, s.pid, s.toStdout, s.bytes);
    }
    hide Output;
  }

  /** No step moves the reply further away; useful steps bring it nearer. */
  lemma StepMeasure(w: World, id: nat, s: Step)
    requires Inv(w, id) && Enabled(w, s) && Executing(w.pc) && !s.DaemonReplies?
    ensures Executing(Next(w, s).pc) && Next(w, s).written == w.written && Next(w, s).settings == w.settings
    ensures Measure(Next(w, s)) + (if Useful(w, s) then 1 else 0) <= Measure(w)
  {
    if Quiet(s) {
      QuietSteps(w, s);
      QuietMeasure(w, id, s);
      hide Next, Enabled, Inv;
    } else {
      hide FramingOk, ExecutionsOk, PidsOk, Encode;
    }
  }

  function UsefulCount(w: World, steps: seq<Step>): nat
    requires After(w, steps).Some?
  {
    if steps == [] then 0
    else
      var u := After(w, steps[..|steps| - 1]).value;
      UsefulCount(w, steps[..|steps| - 1]) + (if Useful(u, steps[|steps| - 1]) then 1 else 0)
  }

  lemma WrittenStep(w: World, s: Step)
    requires Enabled(w, s)
    ensures w.written <= Next(w, s).written
    ensures s.DaemonReplies? ==> |Next(w, s).written| == |w.written| + 1
  {
  }

  lemma {:induction false} ProgressInvariant(w: World, id: nat, steps: seq<Step>)
    requires Inv(w, id) && Executing(w.pc) && After(w, steps).Some?
    ensures var w' := After(w, steps).value;
            && Inv(w', id) && w.written <= w'.written
            && (|w'.written| == |w.written| ==>
                  && Executing(w'.pc) && w'.settings == w.settings
                  && UsefulCount(w, steps) + Measure(w') <= Measure(w))
  {
    hide Inv, Next, Enabled, Measure, Useful, Executing;
    if steps != [] {
      var u := After(w, steps[..|steps| - 1]).value;
      var s := steps[|steps| - 1];
      ProgressInvariant(w, id, steps[..|steps| - 1]);
      StepKeepsInv(u, id, s);
      WrittenStep(u, s);
      if |u.written| == |w.written| && !s.DaemonReplies? {
        StepMeasure(u, id, s);
      }
    }
  }

  /** Some pid is always free. */
  lemma FreshPid(used: set<nat>) returns (pid: nat)
    ensures pid > 0 && pid !in used
  {
    pid := FreshAbove(used);
  }

  lemma {:induction false} FreshAbove(used: set<nat>) returns (pid: nat)
    ensures pid > 0 && forall p :: p in used ==> p < pid
    decreases |used|
  {
    if used == {} {
      pid := 1;
    } else {
      var p :| p in used;
      var q := FreshAbove(used - {p});
      pid := if p < q then q else p + 1;
      forall r | r in used
        ensures r < pid
      {
        assert r == p || r in used - {p};
      }
    }
  }

  /** The daemon waits for a child that nothing will stop. */
  predicate Stuck(w: World)
  {
    w.pc.Waiting? && w.timer == 0 && !w.alarm && !IsZombie(w, w.putPid)
  }

  /** A useful step is possible exactly when the daemon is not stuck; with a timeout it never is. */
  lemma UsefulStepOrStuck(w: World, id: nat)
    requires Inv(w, id) && Executing(w.pc)
    ensures (exists s :: Enabled(w, s) && Useful(w, s)) <==> !Stuck(w)
    ensures w.settings.timeoutUs > 0 ==> !Stuck(w)
  {
    hide FramingOk, ExecutionsOk, PidsOk;
    if !Stuck(w) {
      var pid := FreshPid(w.usedPids);
      var s := match w.pc
        case Forking => DaemonForks(pid)
        case StoringPid(_) => DaemonStoresPid
        case Arming => DaemonArms
        case Waiting =>
          if IsZombie(w, w.putPid) then DaemonReaps else if w.alarm then AlarmDelivered else TimerTicks
        case Replying(_) => DaemonReplies
        case _ => CallInterrupted;
      assert Enabled(w, s) && Useful(w, s);
    }
  }

  /** Main liveness result, for every run from the start of an execution: until its reply is written,
      at most 2 * timeout + 8 useful steps have been taken, and under a non-zero timeout another one is
      possible; so a run that keeps taking useful steps reaches the reply, however often the child
      stops and however many calls are interrupted. */
  lemma ReplyIsInevitable(w: World, id: nat, steps: seq<Step>)
    requires Inv(w, id) && w.pc.Forking? && After(w, steps).Some?
    ensures var w' := After(w, steps).value;
            w'.written == w.written ==>
              && UsefulCount(w, steps) <= 2 * w.settings.timeoutUs + 8
              && (w.settings.timeoutUs > 0 ==> exists s :: Enabled(w', s) && Useful(w', s))
  {
    ProgressInvariant(w, id, steps);
    var w' := After(w, steps).value;
    assert Measure(w) == 2 * w.settings.timeoutUs + 8;
    hide *;
    if w'.written == w.written {
      UsefulStepOrStuck(w', id);
    }
  }

  /** The child does not end by itself during the run. */
  predicate ChildSurvives(steps: seq<Step>)
  {
    forall i :: 0 <= i < |steps| ==> !steps[i].ChildExits? && !steps[i].ChildDies?
  }

  lemma StuckStep(w: World, id: nat, s: Step)
    requires Inv(w, id) && Stuck(w) && Enabled(w, s) && !s.ChildExits? && !s.ChildDies?
    ensures Stuck(Next(w, s)) && Next(w, s).written == w.written
  {
    BusyProcess(w, id);
    hide FramingOk, ExecutionsOk, PidsOk, Encode;
  }

  /** Arming the timer for a live child leaves the daemon stuck exactly when the timeout is zero. */
  lemma StuckAfterArming(w: World, id: nat)
    requires Inv(w, id) && w.pc.Arming? && !w.alarm && IsRunning(w, w.putPid)
    ensures Stuck(Next(w, DaemonArms)) <==> w.settings.timeoutUs == 0
  {
    hide FramingOk, ExecutionsOk, PidsOk;
  }

  /** A stuck daemon stays stuck: no run of any length brings a reply unless the child ends by itself. */
  lemma {:induction false} StuckNeverReplies(w: World, id: nat, steps: seq<Step>)
    requires Inv(w, id) && Stuck(w)
    requires After(w, steps).Some? && ChildSurvives(steps)
    ensures var w' := After(w, steps).value;
            Inv(w', id) && Stuck(w') && w'.written == w.written
  {
    hide Inv, Next, Enabled, Stuck;
    if steps != [] {
      var u := After(w, steps[..|steps| - 1]).value;
      var s := steps[|steps| - 1];
      StuckNeverReplies(w, id, steps[..|steps| - 1]);
      StepKeepsInv(u, id, s);
      StuckStep(u, id, s);
    }
  }

  // ----- when the alarm comes -----

  function Ticks(steps: seq<Step>): nat
  {
    if steps == [] then 0
    else Ticks(steps[..|steps| - 1]) + (if steps[|steps| - 1].TimerTicks? then 1 else 0)
  }

  /** From one arming to the next, unless a signal is pending when it happens: the handler does not run
      and no signal becomes pending before `timeoutUs` ticks have passed, and then one does; without a
      timeout none ever does. */
  lemma {:induction false} AlarmComesAtTimeout(w: World, steps: seq<Step>)
    requires w.pc.Arming? && !w.alarm && After(Next(w, DaemonArms), steps).Some? && DaemonArms !in steps
    ensures var u := After(Next(w, DaemonArms), steps).value;
            && Ticks(steps) <= w.settings.timeoutUs && u.timer <= w.settings.timeoutUs - Ticks(steps)
            && (Ticks(steps) < w.settings.timeoutUs || w.settings.timeoutUs == 0 ==>
                  AlarmDelivered !in steps && !u.alarm && u.timer == w.settings.timeoutUs - Ticks(steps))
            && (Ticks(steps) == w.settings.timeoutUs > 0 ==> u.alarm || AlarmDelivered in steps)
  {
    if steps != [] {
      var before, s := steps[..|steps| - 1], steps[|steps| - 1];
      assert steps == before + [s];
      AlarmComesAtTimeout(w, before);
      TimerEffect(After(Next(w, DaemonArms), before).value, s);
      hide Next, Enabled;
    }
  }

  /** Only arming, ticks and the delivery touch the timer and the pending signal. */
  lemma TimerEffect(w: World, s: Step)
    requires Enabled(w, s) && s != DaemonArms
    ensures var w' := Next(w, s);
            && (s.TimerTicks? ==> w.timer > 0 && w'.timer == w.timer - 1 && w'.alarm == (w.alarm || w.timer == 1))
            && (s.AlarmDelivered? ==> w.alarm && !w'.alarm && w'.timer == 0)
            && (!s.TimerTicks? && !s.AlarmDelivered? ==> w'.timer == w.timer && w'.alarm == w.alarm)
  {
    if s.ChildWrites? {
      OutputEffect(w, s.pid, s.toStdout, s.bytes);
    }
    hide Output;
  }

  // ----- a stuck daemon is reachable -----

  ghost predicate Reachable(id: nat, w: World)
  {
    exists steps :: After(Init(id), steps).Some? && After(Init(id), steps).value == w
  }

  lemma ReachNext(id: nat, w: World, s: Step)
    requires Reachable(id, w) && Enabled(w, s)
    ensures Reachable(id, Next(w, s))
  {
    hide Next, Enabled, Init;
    var steps :| After(Init(id), steps).Some? && After(Init(id), steps).value == w;
    assert (steps + [s])[..|steps|] == steps;
    assert After(Init(id), steps + [s]).value == Next(w, s);
  }

  /** A daemon without children at the given place, with the given bytes on the way to it. */
  ghost predicate Fresh(w: World, id: nat, pc: Pc, bytes: seq<Byte>)
  {
    Reachable(id, w) && w.pc == pc && w.toDaemon == bytes && w.timer == 0 && !w.alarm && w.procs == map[]
  }

  lemma ReadsWord(w: World, id: nat, word: seq<Byte>, rest: seq<Byte>) returns (w': World)
    requires |word| == 4 && Fresh(w, id, ReadingCommand([]), word + rest)
    requires FromLE(word) == SET_TIMEOUT_CODE || FromLE(word) == EXECUTE_CODE
    ensures Fresh(w', id, if FromLE(word) == SET_TIMEOUT_CODE then ReadingTimeout([]) else Forking, rest)
    ensures w'.settings == w.settings
  {
    assert (word + rest)[..4] == word && (word + rest)[4..] == rest && [] + word == word;
    hide Reachable, FromLE;
    ReachNext(id, w, DaemonReads(4));
    var u := Next(w, DaemonReads(4));
    ReachNext(id, u, DaemonDispatches);
    w' := Next(u, DaemonDispatches);
  }

  lemma ReadsTimeout(w: World, id: nat, word: seq<Byte>, rest: seq<Byte>) returns (w': World)
    requires |word| == 8 && Fresh(w, id, ReadingTimeout([]), word + rest)
    ensures Fresh(w', id, ReadingCommand([]), rest) && w'.settings.timeoutUs == FromLE(word)
  {
    assert (word + rest)[..8] == word && (word + rest)[8..] == rest && [] + word == word;
    hide Reachable, FromLE;
    ReachNext(id, w, DaemonReads(8));
    var u := Next(w, DaemonReads(8));
    ReachNext(id, u, DaemonDispatches);
    w' := Next(u, DaemonDispatches);
  }

  lemma Arms(w: World, id: nat, bytes: seq<Byte>) returns (w': World)
    requires Fresh(w, id, Forking, bytes) && w.settings.timeoutUs == 0
    ensures Reachable(id, w') && Stuck(w')
  {
    hide Reachable;
    var pid := FreshPid(w.usedPids);
    ReachNext(id, w, DaemonForks(pid));
    var u := Next(w, DaemonForks(pid));
    ReachNext(id, u, DaemonStoresPid);
    u := Next(u, DaemonStoresPid);
    ReachNext(id, u, DaemonArms);
    w' := Next(u, DaemonArms);
  }

  lemma Sends(w: World, id: nat, pc: Pc, bytes: seq<Byte>, c: Command)
    requires Fresh(w, id, pc, bytes) && c.Valid()
    ensures Enabled(w, ClientSends(c)) && Fresh(Next(w, ClientSends(c)), id, pc, bytes + Encode(c))
  {
    hide Reachable, Encode;
    ReachNext(id, w, ClientSends(c));
  }

  lemma StartsFresh(id: nat)
    ensures Fresh(Init(id), id, ReadingCommand([]), [])
  {
    var w := Init(id);
    assert After(w, []).Some? && After(w, []).value == w;
  }

  lemma ZeroTimeoutBytes()
    ensures [] + Encode(SetTimeout(0)) + Encode(Execute) ==
            ToLE(SET_TIMEOUT_CODE, 4) + (ToLE(0, 8) + (ToLE(EXECUTE_CODE, 4) + []))
    ensures SetTimeout(0).Valid() && Execute.Valid()
  {
    hide ToLE;
  }

  lemma ZeroTimeoutWords()
    ensures FromLE(ToLE(SET_TIMEOUT_CODE, 4)) == SET_TIMEOUT_CODE && FromLE(ToLE(0, 8)) == 0
    ensures FromLE(ToLE(EXECUTE_CODE, 4)) == EXECUTE_CODE != SET_TIMEOUT_CODE
  {
    Pow256Values();
    FromToLE(SET_TIMEOUT_CODE, 4);
    FromToLE(0, 8);
    FromToLE(EXECUTE_CODE, 4);
    hide ToLE, FromLE;
  }

  /** A client that sets the timeout to zero and asks for an execution can get the daemon stuck. */
  lemma StuckIsReachable(id: nat)
    ensures exists w :: Reachable(id, w) && Stuck(w)
  {
    hide *;
    StartsFresh(id);
    ZeroTimeoutBytes();
    ZeroTimeoutWords();
    var w := Init(id);
    Sends(w, id, ReadingCommand([]), [], SetTimeout(0));
    w := Next(w, ClientSends(SetTimeout(0)));
    Sends(w, id, ReadingCommand([]), [] + Encode(SetTimeout(0)), Execute);
    w := Next(w, ClientSends(Execute));
    var rest := ToLE(EXECUTE_CODE, 4) + [];
    var w1 := ReadsWord(w, id, ToLE(SET_TIMEOUT_CODE, 4), ToLE(0, 8) + rest);
    var w2 := ReadsTimeout(w1, id, ToLE(0, 8), rest);
    var w3 := ReadsWord(w2, id, ToLE(EXECUTE_CODE, 4), []);
    var w4 := Arms(w3, id, []);
  }
}
