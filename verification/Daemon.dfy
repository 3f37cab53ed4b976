/** The daemon's own code, run against a scripted kernel: the command loop, and for each
    Execute the `waitpid` loop that produces its reply. */
module Daemon {
  import opened Bits
  import opened ForkServer
  import opened Framing

  /** What one call of `waitpid` with WUNTRACED returns. */
  datatype WaitResult = WaitInterrupted | WaitStopped(signal: nat) | WaitEnded(status: Status)

  /** The deaths among the results, in order; interruptions and stops are not answers. */
  function Ended(waits: seq<WaitResult>): seq<Status>
  {
    if waits == [] then []
    else (if waits[0].WaitEnded? then [waits[0].status] else []) + Ended(waits[1..])
  }

  function Responses(sts: seq<Status>): (r: seq<Response>)
    ensures |r| == |sts|
  {
    seq(|sts|, i requires 0 <= i < |sts| => ResponseOf(sts[i]))
  }

  lemma ServeStep(s: Settings, cs: seq<Command>, stream: seq<Byte>, c: Command)
    requires DecodeOne(stream).Some? && DecodeOne(stream).value.0 == c
    ensures cs + DecodeAll(stream) == (cs + [c]) + DecodeAll(stream[DecodeOne(stream).value.1..])
    ensures Fold(s, cs + [c]) ==
            match c
            case SetTimeout(us) => Fold(s, cs).(timeoutUs := us)
            case ReadStdin => Fold(s, cs).(readStdin := true)
            case SaveOutput => Fold(s, cs).(saveOutput := true)
            case _ => Fold(s, cs)
    ensures Executions(s, cs + [c]) ==
            if c.Execute? then Executions(s, cs) + [Fold(s, cs)] else Executions(s, cs)
  {
    assert (cs + [c])[..|cs|] == cs;
    assert Executions(s, cs) + [] == Executions(s, cs);
  }

  class ForkServerDaemon {
    const pipe: CommandPipe
    var settings: Settings
    var waits: seq<WaitResult>       // still to be returned by waitpid; then it blocks for good
    var executed: seq<Settings>      // settings of every child forked
    var replies: seq<Response>       // written to the reply pipe

    constructor (pipe: CommandPipe, executorId: nat, waits: seq<WaitResult>)
      ensures this.pipe == pipe && this.settings == DefaultSettings(executorId) && this.waits == waits
      ensures executed == [] && replies == []
    {
      this.pipe := pipe;
      this.settings := DefaultSettings(executorId);
      this.waits := waits;
      this.executed := [];
      this.replies := [];
    }

    /** Fork a child and wait until it has ended, retrying over interruptions and stops. */
    method ExecutePUT() returns (answered: bool)
      modifies this
      ensures settings == old(settings) && executed == old(executed) + [settings]
      ensures answered <==> Ended(old(waits)) != []
      ensures replies == old(replies) + (if answered then [ResponseOf(Ended(old(waits))[0])] else [])
      ensures answered ==>
                && var end, reply := Ended(old(waits))[0], replies[|old(replies)|];
                && reply.error == 0 && reply.signalNumber == (if end.KilledBy? then end.signal else 0)
                && reply.exitCode == if end.KilledBy? then end.signal else end.code
      ensures Ended(waits) == if answered then Ended(old(waits))[1..] else []
    {
      executed := executed + [settings];
      while waits != []
        invariant Ended(waits) == Ended(old(waits))
        invariant settings == old(settings) && executed == old(executed) + [settings]
        invariant replies == old(replies)
        decreases |waits|
      {
        var w := waits[0];
        waits := waits[1..];
        match w
        case WaitInterrupted =>
        case WaitStopped(_) =>
        case WaitEnded(status) =>
          replies := replies + [ResponseOf(status)];
          return true;
      }
      answered := false;
    }

    /** The command loop; see `Served`. */
    method Serve()
      requires pipe.NeverFails() && executed == [] && replies == []
      modifies this, pipe
      ensures Served(old(settings), DecodeAll(old(pipe.stream)), Ended(old(waits)), executed, replies)
    {
      ghost var start, stream, ends := settings, pipe.stream, Ended(waits);
      ghost var cs := [];
      ServingStart(start, stream, ends);
      hide Serving, Served, Ended, DecodeAll, DecodeOne;
      while true
        invariant pipe.NeverFails()
        invariant Serving(start, stream, ends, cs, pipe.stream, settings, executed, replies, Ended(waits))
        decreases |pipe.stream|
      {
        ghost var s := pipe.stream;
        var c := ReadCommand(pipe);
        if c.None? {
          ServingEnds(start, stream, ends, cs, s, settings, executed, replies, Ended(waits));
          return;
        }
        ServingAdvances(start, stream, ends, cs, s, settings, executed, replies, Ended(waits), c.value);
        cs := cs + [c.value];
        match c.value
        case SetTimeout(us) => settings := settings.(timeoutUs := us);
        case ReadStdin => settings := settings.(readStdin := true);
        case SaveOutput => settings := settings.(saveOutput := true);
        case Execute =>
          var answered := ExecutePUT();
          if !answered {
            return;
          }
        case Other(_) =>
      }
    }
  }

  /** Each Execute ran under the settings folded from the commands before it and was answered with
      the next child's end, until the stream ended or a child did not. How `read` cut the stream up,
      and how often calls were interrupted or children stopped, is invisible. */
  ghost predicate Served(
    start: Settings, commands: seq<Command>, ends: seq<Status>, executed: seq<Settings>, replies: seq<Response>)
  {
    var due := Executions(start, commands);
    && executed <= due
    && replies <= Responses(ends)
    && (if |ends| >= |due| then executed == due && |replies| == |due|
        else |replies| == |ends| && |executed| == |ends| + 1)
  }

  /** The replies of a served stream say, field by field, how the successive children ended. */
  lemma ServedReplies(
    start: Settings, commands: seq<Command>, ends: seq<Status>, executed: seq<Settings>, replies: seq<Response>)
    requires Served(start, commands, ends, executed, replies)
    ensures |replies| <= |ends| && |replies| <= |executed|
    ensures forall k :: 0 <= k < |replies| ==>
              && replies[k].error == 0
              && (ends[k].ExitedWith? ==> replies[k].exitCode == ends[k].code && replies[k].signalNumber == 0)
              && (ends[k].KilledBy? ==> replies[k].exitCode == ends[k].signal == replies[k].signalNumber)
  {
    hide Executions;
  }

  /** The loop invariant: the commands cs have been served and `rest` is still to be read. */
  ghost predicate Serving(
    start: Settings, stream: seq<Byte>, ends: seq<Status>, cs: seq<Command>, rest: seq<Byte>,
    settings: Settings, executed: seq<Settings>, replies: seq<Response>, later: seq<Status>)
  {
    && DecodeAll(stream) == cs + DecodeAll(rest)
    && settings == Fold(start, cs) && executed == Executions(start, cs)
    && |replies| == |executed| <= |ends|
    && later == ends[|replies|..]
    && replies == Responses(ends)[..|replies|]
  }

  lemma ServingStart(start: Settings, stream: seq<Byte>, ends: seq<Status>)
    ensures Serving(start, stream, ends, [], stream, start, [], [], ends)
  {
    assert [] + DecodeAll(stream) == DecodeAll(stream);
  }

  lemma ServingEnds(
    start: Settings, stream: seq<Byte>, ends: seq<Status>, cs: seq<Command>, rest: seq<Byte>,
    settings: Settings, executed: seq<Settings>, replies: seq<Response>, later: seq<Status>)
    requires Serving(start, stream, ends, cs, rest, settings, executed, replies, later)
    requires DecodeOne(rest).None?
    ensures Served(start, DecodeAll(stream), ends, executed, replies)
  {
    assert DecodeAll(rest) == [] && cs + [] == cs;
  }

  /** One more command: an Execute that is answered, an Execute that is not, or a setting. */
  lemma ServingAdvances(
    start: Settings, stream: seq<Byte>, ends: seq<Status>, cs: seq<Command>, rest: seq<Byte>,
    settings: Settings, executed: seq<Settings>, replies: seq<Response>, later: seq<Status>, c: Command)
    requires Serving(start, stream, ends, cs, rest, settings, executed, replies, later)
    requires DecodeOne(rest).Some? && DecodeOne(rest).value.0 == c
    ensures 4 <= DecodeOne(rest).value.1 <= |rest|
    ensures c.Execute? && later == [] ==>
              Served(start, DecodeAll(stream), ends, executed + [settings], replies + [])
    ensures c.Execute? && later != [] ==>
              Serving(start, stream, ends, cs + [c], rest[DecodeOne(rest).value.1..],
                      settings, executed + [settings], replies + [ResponseOf(later[0])], later[1..])
    ensures !c.Execute? ==>
              Serving(start, stream, ends, cs + [c], rest[DecodeOne(rest).value.1..],
                      Apply(settings, c), executed, replies, later)
  {
    hide *;
    CommandFits(rest);
    if !c.Execute? {
      ServesSetting(start, stream, ends, cs, rest, settings, executed, replies, later, c);
    } else if later != [] {
      ServesAnswered(start, stream, ends, cs, rest, settings, executed, replies, later);
    } else {
      ServesUnanswered(start, stream, ends, cs, rest, settings, executed, replies, later);
    }
  }

  lemma CommandFits(rest: seq<Byte>)
    requires DecodeOne(rest).Some?
    ensures 4 <= DecodeOne(rest).value.1 <= |rest|
  {
  }

  lemma ServesSetting(
    start: Settings, stream: seq<Byte>, ends: seq<Status>, cs: seq<Command>, rest: seq<Byte>,
    settings: Settings, executed: seq<Settings>, replies: seq<Response>, later: seq<Status>, c: Command)
    requires Serving(start, stream, ends, cs, rest, settings, executed, replies, later)
    requires DecodeOne(rest).Some? && DecodeOne(rest).value.0 == c && !c.Execute?
    ensures 4 <= DecodeOne(rest).value.1 <= |rest|
    ensures Serving(start, stream, ends, cs + [c], rest[DecodeOne(rest).value.1..], Apply(settings, c),
                    executed, replies, later)
  {
    ServeStep(start, cs, rest, c);
    hide Executions, Fold, DecodeAll, DecodeOne, Apply;
  }

  lemma ServesAnswered(
    start: Settings, stream: seq<Byte>, ends: seq<Status>, cs: seq<Command>, rest: seq<Byte>,
    settings: Settings, executed: seq<Settings>, replies: seq<Response>, later: seq<Status>)
    requires Serving(start, stream, ends, cs, rest, settings, executed, replies, later)
    requires DecodeOne(rest).Some? && DecodeOne(rest).value.0 == Execute && later != []
    ensures 4 <= DecodeOne(rest).value.1 <= |rest|
    ensures Serving(start, stream, ends, cs + [Execute], rest[DecodeOne(rest).value.1..], settings,
                    executed + [settings], replies + [ResponseOf(later[0])], later[1..])
  {
    ServeStep(start, cs, rest, Execute);
    hide Executions, Fold, DecodeAll, DecodeOne, Responses, ResponseOf;
    NextReply(ends, |replies|);
  }

  lemma ServesUnanswered(
    start: Settings, stream: seq<Byte>, ends: seq<Status>, cs: seq<Command>, rest: seq<Byte>,
    settings: Settings, executed: seq<Settings>, replies: seq<Response>, later: seq<Status>)
    requires Serving(start, stream, ends, cs, rest, settings, executed, replies, later)
    requires DecodeOne(rest).Some? && DecodeOne(rest).value.0 == Execute && later == []
    ensures Served(start, DecodeAll(stream), ends, executed + [settings], replies + [])
  {
    ServeStep(start, cs, rest, Execute);
    assert |replies| == |executed| == |ends| && replies == Responses(ends)[..|replies|];
    assert DecodeAll(stream) == (cs + [Execute]) + DecodeAll(rest[DecodeOne(rest).value.1..]);
    assert Executions(start, cs + [Execute]) == executed + [settings];
    hide *;
    ExecutionsGrow(start, cs + [Execute], DecodeAll(stream));
    AllAnswered(start, DecodeAll(stream), ends, executed + [settings], replies);
  }

  lemma AllAnswered(
    start: Settings, commands: seq<Command>, ends: seq<Status>, executed: seq<Settings>, replies: seq<Response>)
    requires executed <= Executions(start, commands) && |executed| == |ends| + 1
    requires |replies| == |ends| && replies == Responses(ends)[..|replies|]
    ensures Served(start, commands, ends, executed, replies + [])
  {
    hide Executions, Responses;
  }

  lemma NextReply(ends: seq<Status>, n: nat)
    requires n < |ends|
    ensures ends[n..][1..] == ends[n + 1..] && ends[n..][0] == ends[n]
    ensures Responses(ends)[..n] + [ResponseOf(ends[n])] == Responses(ends)[..n + 1]
  {
  }
}
