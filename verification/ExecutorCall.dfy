/** The executor's own code for one call, as it updates its file and buffers step by step, and its
    agreement with the session machine. */
module ExecutorCall {
  import opened Bits
  import opened Executor
  import opened ForkServer
  import opened Framing
  import opened Prelude

  /** The polling loop's buffers after a list of events. */
  function HandleAll(pc: CallPc, events: seq<Ready>): (r: CallPc)
    requires pc.Polling?
    ensures r.Polling?
  {
    if events == [] then pc else Handle(HandleAll(pc, events[..|events| - 1]), events[|events| - 1])
  }

  const EMPTY: CallPc := Polling(false, None, [], [])

  predicate IsReply(e: Ready)
  {
    e.ReplyReady?
  }

  /** A blocking `epoll_wait` reports something; only after a reply may it report nothing, which
      ends the loop, so `Nothing` is the last event and a reply came before it. */
  predicate Complete(events: seq<Ready>)
  {
    && events != [] && events[|events| - 1].Nothing?
    && (forall i :: 0 <= i < |events| - 1 ==> !events[i].Nothing?)
    && exists i :: 0 <= i < |events| && IsReply(events[i])
  }

  class ExecutorState {
    var stdinFile: seq<Byte>
    var offset: nat
    var toForkServer: seq<Byte>

    predicate Valid()
      reads this
    {
      offset <= |stdinFile|
    }

    /** Whatever the file held, it ends up holding exactly the test case. */
    method WriteTestcaseToStdin(testcase: seq<Byte>)
      modifies this`stdinFile, this`offset
      ensures Valid() && stdinFile == testcase && offset == |testcase|
    {
      offset := 0;
      stdinFile := WriteAt(stdinFile, offset, testcase);
      offset := offset + |testcase|;
      stdinFile := ResizeTo(stdinFile, |testcase|);
    }

    method CallForkServerAPI(command: Command)
      requires !command.SetTimeout?
      modifies this`toForkServer
      ensures toForkServer == old(toForkServer) + Encode(command)
    {
      var word := ToLE(command.Code(), 4);
      assert Encode(command) == word + [] == word;
      toForkServer := toForkServer + word;
    }

    /** One call, given what each wait reports: the file holds the input and the command is on its
        way before the first wait; every chunk before the final empty wait is collected, in order. */
    method Call(input: seq<Byte>, events: seq<Ready>) returns (o: Outcome)
      requires Complete(events)
      modifies this
      ensures stdinFile == input && toForkServer == old(toForkServer) + Encode(Execute)
      ensures var end := HandleAll(EMPTY, events);
              o == Outcome(end.response, end.out, end.err) && o.response.Some?
    {
      WriteTestcaseToStdin(input);
      CallForkServerAPI(Execute);
      o := Poll(events);
    }
  }

  method Poll(events: seq<Ready>) returns (o: Outcome)
    requires Complete(events)
    ensures var end := HandleAll(EMPTY, events);
            o == Outcome(end.response, end.out, end.err) && o.response.Some?
  {
    var waitForever := true;
    var standardOutput, standardError: seq<Byte> := [], [];
    var response: Option<Response> := None;
    var i := 0;
    while true
      invariant i < |events| && (waitForever ==> forall j :: 0 <= j < i ==> !IsReply(events[j]))
      invariant HandleAll(EMPTY, events[..i]) == Polling(!waitForever, response, standardOutput, standardError)
      invariant response.Some? <==> !waitForever
      decreases |events| - i
    {
      var event := events[i];
      assert events[..i + 1][..i] == events[..i];
      i := i + 1;
      match event {
        case WaitInterrupted =>
        case Nothing => break;
        case StdoutReady(bytes) => standardOutput := standardOutput + bytes;
        case StderrReady(bytes) => standardError := standardError + bytes;
        case ReplyReady(r) => response, waitForever := Some(r), false;
      }
    }
    assert events[..i] == events;
    o := Outcome(response, standardOutput, standardError);
  }

  // ----- agreement with the session machine -----

  predicate Polls(m: Move)
  {
    m.Environment? || m.PollStdout? || m.PollStderr? || m.PollReply? || m.PollInterrupted?
  }

  /** What the loop sees of one move. */
  function Seen(s: Session, m: Move): seq<Ready>
    requires Possible(s, m)
  {
    match m
    case PollStdout(n) => [StdoutReady(s.world.stdout[..n])]
    case PollStderr(n) => [StderrReady(s.world.stderr[..n])]
    case PollReply => [ReplyReady(s.world.replies[0])]
    case PollInterrupted => [WaitInterrupted]
    case _ => []
  }

  function SeenAll(s: Session, moves: seq<Move>): seq<Ready>
    requires Play(s, moves).Some?
  {
    if moves == [] then []
    else
      var u := Play(s, moves[..|moves| - 1]).value;
      SeenAll(s, moves[..|moves| - 1]) + Seen(u, moves[|moves| - 1])
  }

  lemma OneMoveFollows(u: Session, m: Move)
    requires Possible(u, m) && Polls(m) && u.pc.Polling?
    ensures Do(u, m).pc == if Seen(u, m) == [] then u.pc else Handle(u.pc, Seen(u, m)[0])
    ensures |Seen(u, m)| <= 1
  {
    hide Next, Enabled;
  }

  lemma HandleLast(pc: CallPc, events: seq<Ready>, more: seq<Ready>)
    requires pc.Polling? && |more| <= 1
    ensures HandleAll(pc, events + more) ==
            if more == [] then HandleAll(pc, events) else Handle(HandleAll(pc, events), more[0])
  {
    if more == [] {
      assert events + more == events;
    } else {
      assert (events + more)[..|events|] == events;
    }
    hide Handle;
  }

  /** While a call polls, its buffers in the session are those of the loop fed with what it sees;
      so the theorems about sessions are about the loop's results. */
  lemma {:induction false} SessionFollowsLoop(s: Session, moves: seq<Move>)
    requires Play(s, moves).Some? && s.pc.Polling?
    requires forall i :: 0 <= i < |moves| ==> Polls(moves[i])
    ensures Play(s, moves).value.pc == HandleAll(s.pc, SeenAll(s, moves))
  {
    hide Possible, Do, Seen, Handle, Polls;
    if moves == [] {
    } else {
      var before, m := moves[..|moves| - 1], moves[|moves| - 1];
      SessionFollowsLoop(s, before);
      var u := Play(s, before).value;
      assert Polls(m);
      OneMoveFollows(u, m);
      HandleLast(s.pc, SeenAll(s, before), Seen(u, m));
    }
  }
}
