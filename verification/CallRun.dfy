/** One call of the executor from beginning to end, as a run of the session machine. */
module CallRun {
  import opened Bits
  import opened Executor
  import opened ForkServer
  import opened Framing
  import opened Prelude

  ghost predicate Reached(oldFile: seq<Byte>, s: Session)
  {
    exists moves :: Play(Start(oldFile), moves) == Some(s)
  }

  lemma ReachStart(oldFile: seq<Byte>)
    ensures Reached(oldFile, Start(oldFile))
  {
    assert Play(Start(oldFile), []) == Some(Start(oldFile));
  }

  lemma Reach(oldFile: seq<Byte>, s: Session, m: Move)
    requires Reached(oldFile, s) && Possible(s, m)
    ensures Reached(oldFile, Do(s, m))
  {
    hide Start, Possible, Do;
    var moves :| Play(Start(oldFile), moves) == Some(s);
    assert (moves + [m])[..|moves|] == moves;
    assert Play(Start(oldFile), moves + [m]) == Some(Do(s, m));
  }

  lemma ReachStep(oldFile: seq<Byte>, s: Session, step: Step) returns (t: Session)
    requires Reached(oldFile, s) && Enabled(s.world, step)
    requires !step.ClientSends? && !step.ClientTakesReply? && !step.ClientTakesOutput?
    ensures Reached(oldFile, t) && t == s.(world := Next(s.world, step))
  {
    hide Reached, Enabled, Next;
    t := s.(world := Next(s.world, step));
    Reach(oldFile, s, Environment(step));
  }

  /** The command of a call has been sent; the daemon has these bytes still to read and no children. */
  ghost predicate Sent(oldFile: seq<Byte>, s: Session, input: seq<Byte>, pc: Pc, bytes: seq<Byte>)
  {
    var w := s.world;
    && Reached(oldFile, s) && s.pc == Polling(false, None, [], []) && s.outcomes == [] && s.stdinFile == input
    && w.pc == pc && w.toDaemon == bytes && w.procs == map[] && w.usedPids == {} && w.executions == []
    && w.stdout == [] && w.stderr == [] && w.replies == [] && !w.alarm && !w.settings.saveOutput
  }

  lemma Begins(oldFile: seq<Byte>, input: seq<Byte>) returns (s: Session)
    ensures Sent(oldFile, s, input, ReadingCommand([]), [2, 0, 0, 0] + ([4, 0, 0, 0] + []))
  {
    s := PutsInput(oldFile, input);
    EncodedBytes(0);
    hide Reached, Encode;
    Reach(oldFile, s, SendExecute);
    s := Do(s, SendExecute);
    assert [2, 0, 0, 0] + [4, 0, 0, 0] == [2, 0, 0, 0] + ([4, 0, 0, 0] + []);
  }

  lemma PutsInput(oldFile: seq<Byte>, input: seq<Byte>) returns (s: Session)
    ensures Reached(oldFile, s) && s == Start(oldFile).(pc := Truncated(input), stdinFile := input)
  {
    ReachStart(oldFile);
    hide Reached, Encode;
    s := Start(oldFile);
    Reach(oldFile, s, CallBegins(input));
    s := Do(s, CallBegins(input));
    Reach(oldFile, s, WriteInput);
    s := Do(s, WriteInput);
    Reach(oldFile, s, TruncateFile);
    s := Do(s, TruncateFile);
  }

  lemma ReadsOne(oldFile: seq<Byte>, s: Session, input: seq<Byte>, c: Command, rest: seq<Byte>) returns (t: Session)
    requires Sent(oldFile, s, input, ReadingCommand([]), Encode(c) + rest) && (c == ReadStdin || c == Execute)
    ensures Sent(oldFile, t, input, if c == Execute then Forking else ReadingCommand([]), rest)
  {
    HeaderOf(c);
    hide Reached, Encode, FromLE;
    t := ReadsWord(oldFile, s, input, Encode(c), rest);
    t := ReachStep(oldFile, t, DaemonDispatches);
  }

  lemma ReadsWord(oldFile: seq<Byte>, s: Session, input: seq<Byte>, word: seq<Byte>, rest: seq<Byte>)
    returns (t: Session)
    requires |word| == 4 && Sent(oldFile, s, input, ReadingCommand([]), word + rest)
    ensures Sent(oldFile, t, input, ReadingCommand(word), rest)
  {
    assert (word + rest)[..4] == word && (word + rest)[4..] == rest && [] + word == word;
    hide Reached;
    t := ReachStep(oldFile, s, DaemonReads(4));
  }

  lemma HeaderOf(c: Command)
    requires c == ReadStdin || c == Execute
    ensures |Encode(c)| == 4 && FromLE(Encode(c)) == c.Code() != SET_TIMEOUT_CODE && FromCode(c.Code()) == c
  {
    assert Encode(c) == ToLE(c.Code(), 4) + [] == ToLE(c.Code(), 4);
    Pow256Values();
    FromToLE(c.Code(), 4);
    hide ToLE, FromLE;
  }

  /** The child runs and the daemon waits for it. */
  ghost predicate Runs(oldFile: seq<Byte>, s: Session, input: seq<Byte>, out: seq<Byte>)
  {
    var w := s.world;
    && Reached(oldFile, s) && s.pc == Polling(false, None, [], []) && s.outcomes == [] && s.stdinFile == input
    && w.pc == Waiting && w.putPid == 1 && w.procs == map[1 := Process(Alive, false)]
    && |w.executions| == 1 && w.executions[0].pid == 1 && !w.executions[0].settings.saveOutput
    && w.stdout == out && w.stderr == [] && w.replies == []
  }

  lemma Forks(oldFile: seq<Byte>, s: Session, input: seq<Byte>) returns (t: Session)
    requires Sent(oldFile, s, input, Forking, [])
    ensures Runs(oldFile, t, input, [])
  {
    hide Reached;
    t := ReachStep(oldFile, s, DaemonForks(1));
    t := ReachStep(oldFile, t, DaemonStoresPid);
    t := ReachStep(oldFile, t, DaemonArms);
  }

  lemma Writes(oldFile: seq<Byte>, s: Session, input: seq<Byte>, out: seq<Byte>) returns (t: Session)
    requires Runs(oldFile, s, input, [])
    ensures Runs(oldFile, t, input, out)
  {
    hide Reached;
    t := ReachStep(oldFile, s, ChildWrites(1, true, out));
    assert [] + out == out && s.world.stderr + [] == [];
    assert ExecutionOf(s.world.executions, 1) == Some(0);
  }

  /** The reply is in the pipe. */
  ghost predicate Answers(oldFile: seq<Byte>, s: Session, input: seq<Byte>, out: seq<Byte>, code: nat)
  {
    var w := s.world;
    && Reached(oldFile, s) && s.pc == Polling(false, None, [], []) && s.outcomes == [] && s.stdinFile == input
    && w.stdout == out && w.stderr == [] && w.replies == [Response(0, code, 0)]
  }

  lemma Ends(oldFile: seq<Byte>, s: Session, input: seq<Byte>, out: seq<Byte>, code: nat) returns (t: Session)
    requires Runs(oldFile, s, input, out) && code < 256
    ensures Answers(oldFile, t, input, out, code)
  {
    hide Reached;
    t := ReachStep(oldFile, s, ChildExits(1, code));
    t := ReachStep(oldFile, t, DaemonReaps);
    t := ReachStep(oldFile, t, DaemonReplies);
  }

  lemma Collects(oldFile: seq<Byte>, s: Session, input: seq<Byte>, out: seq<Byte>, code: nat) returns (t: Session)
    requires Answers(oldFile, s, input, out, code) && |out| <= CHUNK_SIZE
    ensures Reached(oldFile, t) && t.pc == Idle && t.stdinFile == input
    ensures t.outcomes == [Outcome(Some(Response(0, code, 0)), out, [])]
  {
    hide Reached;
    t := s;
    if out != [] {
      Reach(oldFile, t, PollStdout(|out|));
      t := Do(t, PollStdout(|out|));
      assert out[..|out|] == out && out[|out|..] == [] && [] + out == out;
    }
    Reach(oldFile, t, PollReply);
    t := Do(t, PollReply);
    Reach(oldFile, t, PollNothing);
    t := Do(t, PollNothing);
  }

  /** For every input, output that fits into one read, and exit code there is a run in which the child
      writes that output and exits with that code, and the call returns both. */
  lemma CallCanReturn(oldFile: seq<Byte>, input: seq<Byte>, out: seq<Byte>, code: nat) returns (s: Session)
    requires |out| <= 512 && code < 256
    ensures exists moves :: Play(Start(oldFile), moves) == Some(s)
    ensures s.pc == Idle && s.stdinFile == input
    ensures s.outcomes == [Outcome(Some(Response(0, code, 0)), out, [])]
  {
    EncodedBytes(0);
    assert |out| <= CHUNK_SIZE;
    hide Sent, Runs, Answers, Encode, Play, Start;
    s := Begins(oldFile, input);
    s := ReadsOne(oldFile, s, input, ReadStdin, [4, 0, 0, 0] + []);
    s := ReadsOne(oldFile, s, input, Execute, []);
    s := Forks(oldFile, s, input);
    s := Writes(oldFile, s, input, out);
    s := Ends(oldFile, s, input, out, code);
    s := Collects(oldFile, s, input, out, code);
  }
}
