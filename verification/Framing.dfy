/** The byte protocol between a client and the fork server: command encoding, the daemon's
    decoder, and the reading loops that must not care how `read` cuts the stream up. */
module Framing {
  import opened Bits
  import opened Prelude

  const SET_TIMEOUT_CODE: nat := 1
  const READ_STDIN_CODE: nat := 2
  const SAVE_OUTPUT_CODE: nat := 3
  const EXECUTE_CODE: nat := 4

  /** `Other` is any 32-bit word that is not one of the four commands. */
  datatype Command = SetTimeout(us: nat) | ReadStdin | SaveOutput | Execute | Other(code: nat)
  {
    predicate Valid()
    {
      match this
      case SetTimeout(us) => us < WORD64
      case Other(code) => code < WORD32 && !(SET_TIMEOUT_CODE <= code <= EXECUTE_CODE)
      case _ => true
    }

    function Code(): nat
    {
      match this
      case SetTimeout(_) => SET_TIMEOUT_CODE
      case ReadStdin => READ_STDIN_CODE
      case SaveOutput => SAVE_OUTPUT_CODE
      case Execute => EXECUTE_CODE
      case Other(code) => code
    }
  }

  predicate AllValid(cs: seq<Command>)
  {
    forall i :: 0 <= i < |cs| ==> cs[i].Valid()
  }

  /** What the client writes for one command. */
  function Encode(c: Command): seq<Byte>
  {
    ToLE(c.Code(), 4) + (if c.SetTimeout? then ToLE(c.us, 8) else [])
  }

  function EncodeAll(cs: seq<Command>): seq<Byte>
  {
    if cs == [] then [] else EncodeAll(cs[..|cs| - 1]) + Encode(cs[|cs| - 1])
  }

  /** The bytes on the wire: a little-endian word per command, and the timeout behind its word. */
  lemma EncodedBytes(us: nat)
    ensures Encode(ReadStdin) == [2, 0, 0, 0] && Encode(SaveOutput) == [3, 0, 0, 0]
    ensures Encode(Execute) == [4, 0, 0, 0]
    ensures Encode(SetTimeout(us)) == [1, 0, 0, 0] + ToLE(us, 8)
  {
    SmallWord(1);
    SmallWord(2);
    SmallWord(3);
    SmallWord(4);
    hide ToLE;
  }

  lemma SmallWord(v: nat)
    requires v < 256
    ensures ToLE(v, 4) == [v, 0, 0, 0]
  {
    assert ToLE(0, 3) == [0] + ToLE(0, 2) && ToLE(0, 2) == [0] + ToLE(0, 1) && ToLE(0, 1) == [0] + ToLE(0, 0);
  }

  /** A command without payload; unknown words are kept as such. */
  function FromCode(code: nat): Command
    requires code != SET_TIMEOUT_CODE
  {
    if code == READ_STDIN_CODE then ReadStdin
    else if code == SAVE_OUTPUT_CODE then SaveOutput
    else if code == EXECUTE_CODE then Execute
    else Other(code)
  }

  /** The first complete command of a stream and the number of bytes it takes. */
  function DecodeOne(s: seq<Byte>): (r: Option<(Command, nat)>)
    ensures r.Some? ==> 4 <= r.value.1 <= |s|
  {
    if |s| < 4 then None
    else
      var code := FromLE(s[..4]);
      if code != SET_TIMEOUT_CODE then Some((FromCode(code), 4))
      else if |s| < 12 then None
      else Some((SetTimeout(FromLE(s[4..12])), 12))
  }

  /** The commands a whole stream stands for; an incomplete command at the end is dropped. */
  function DecodeAll(s: seq<Byte>): seq<Command>
    decreases |s|
  {
    var r := DecodeOne(s);
    if r.None? then [] else [r.value.0] + DecodeAll(s[r.value.1..])
  }

  /** One encoded command decodes to itself whatever follows it. */
  lemma DecodeEncode(c: Command, tail: seq<Byte>)
    requires c.Valid()
    ensures DecodeOne(Encode(c) + tail) == Some((c, |Encode(c)|))
  {
    var s := Encode(c) + tail;
    Pow256Values();
    FromToLE(c.Code(), 4);
    assert s[..4] == ToLE(c.Code(), 4);
    if c.SetTimeout? {
      FromToLE(c.us, 8);
      assert s[4..12] == ToLE(c.us, 8);
    }
  }

  lemma {:induction false} EncodeAllAppend(cs: seq<Command>, ds: seq<Command>)
    ensures EncodeAll(cs + ds) == EncodeAll(cs) + EncodeAll(ds)
  {
    if ds == [] {
      assert cs + ds == cs;
    } else {
      assert (cs + ds)[..|cs + ds| - 1] == cs + ds[..|ds| - 1];
      EncodeAllAppend(cs, ds[..|ds| - 1]);
    }
  }

  lemma EncodeAllCons(c: Command, cs: seq<Command>)
    ensures EncodeAll([c] + cs) == Encode(c) + EncodeAll(cs)
  {
    EncodeAllAppend([c], cs);
    assert [c][..0] == [];
  }

  lemma DecodeCons(c: Command, tail: seq<Byte>)
    requires c.Valid()
    ensures DecodeAll(Encode(c) + tail) == [c] + DecodeAll(tail)
  {
    DecodeEncode(c, tail);
    assert (Encode(c) + tail)[|Encode(c)|..] == tail;
    hide DecodeOne, Encode;
  }

  /** Round trip: whatever was sent is what is decoded, with any unfinished tail left over. */
  lemma {:induction false} DecodeEncodeAll(cs: seq<Command>, tail: seq<Byte>)
    requires AllValid(cs)
    ensures DecodeAll(EncodeAll(cs) + tail) == cs + DecodeAll(tail)
  {
    if cs == [] {
      assert EncodeAll(cs) + tail == tail;
    } else {
      var c, rest := cs[0], cs[1..];
      assert [c] + rest == cs && c.Valid() && AllValid(rest);
      hide *;
      DecodeEncodeAll(rest, tail);
      EncodeAllCons(c, rest);
      Associative(Encode(c), EncodeAll(rest), tail);
      DecodeCons(c, EncodeAll(rest) + tail);
      Associative([c], rest, DecodeAll(tail));
    }
  }

  /** What the daemon executes for a client is what the client asked for; unknown words change nothing. */
  lemma ServedAsSent(s: Settings, cs: seq<Command>)
    requires AllValid(cs)
    ensures Executions(s, DecodeAll(EncodeAll(cs))) == Executions(s, cs)
  {
    DecodeEncodeAll(cs, []);
    assert EncodeAll(cs) + [] == EncodeAll(cs) && cs + [] == cs;
  }

  // ----- the daemon's reading loops -----

  /** What one call of `read` does: interrupted, failed, or at most `limit` bytes delivered. */
  datatype ReadEvent = Interrupted | Failed | UpTo(limit: nat)

  datatype ReadResult = Eintr | ReadError | Got(bytes: seq<Byte>)

  /** The read end of the command pipe. `stream` holds the bytes still to arrive before the
      writer closes; `script` is how the kernel will behave, after which reads are served in full. */
  class CommandPipe {
    var stream: seq<Byte>
    var script: seq<ReadEvent>

    constructor (stream: seq<Byte>, script: seq<ReadEvent>)
      ensures this.stream == stream && this.script == script
    {
      this.stream := stream;
      this.script := script;
    }

    predicate NeverFails()
      reads this
    {
      Failed !in script
    }

    method Read(count: nat) returns (res: ReadResult)
      requires count > 0
      modifies this
      ensures |script| == if |old(script)| == 0 then 0 else |old(script)| - 1
      ensures old(NeverFails()) ==> NeverFails() && !res.ReadError?
      ensures res.Eintr? ==> |old(script)| > 0
      ensures res.Got? ==> |res.bytes| <= count && old(stream) == res.bytes + stream
      ensures res.Got? && res.bytes == [] ==> old(stream) == []
      ensures !res.Got? ==> stream == old(stream)
    {
      var ev := UpTo(count);
      if script != [] {
        ev := script[0];
        script := script[1..];
      }
      match ev
      case Interrupted => res := Eintr;
      case Failed => res := ReadError;
      case UpTo(limit) =>
        var n := if limit == 0 then 1 else limit;
        n := if n < count then n else count;
        n := if n < |stream| then n else |stream|;
        res := Got(stream[..n]);
        stream := stream[n..];
    }
  }

  datatype Received = Exited | Bytes(count: nat)

  /** Read until the buffer is full or the stream ends; interruptions are retried. */
  method Recv(pipe: CommandPipe, buf: array<Byte>) returns (r: Received)
    modifies pipe, buf
    ensures old(pipe.NeverFails()) ==> r.Bytes? && pipe.NeverFails()
    ensures r.Bytes? ==> r.count == Min(buf.Length, |old(pipe.stream)|)
    ensures r.Bytes? ==> buf[..r.count] == old(pipe.stream)[..r.count]
    ensures r.Bytes? ==> pipe.stream == old(pipe.stream)[r.count..]
  {
    var nread := 0;
    while nread < buf.Length
      invariant nread <= buf.Length
      invariant old(pipe.NeverFails()) ==> pipe.NeverFails()
      invariant old(pipe.stream) == buf[..nread] + pipe.stream
      decreases buf.Length - nread, |pipe.script|
    {
      var res := pipe.Read(buf.Length - nread);
      match res
      case Eintr =>
      case ReadError => return Exited;
      case Got(bytes) =>
        if bytes == [] {
          break;
        }
        ghost var before := buf[..nread];
        forall i | 0 <= i < |bytes| {
          buf[nread + i] := bytes[i];
        }
        nread := nread + |bytes|;
        assert buf[..nread] == before + bytes;
    }
    r := Bytes(nread);
  }

  /** A little-endian word of the given size, or exit when the stream is cut short. */
  method RecvWord(pipe: CommandPipe, size: nat) returns (r: Option<nat>)
    modifies pipe
    ensures old(pipe.NeverFails()) ==> pipe.NeverFails() && (r.None? <==> |old(pipe.stream)| < size)
    ensures r.Some? ==> size <= |old(pipe.stream)|
    ensures r.Some? ==> r.value == FromLE(old(pipe.stream)[..size])
    ensures r.Some? ==> pipe.stream == old(pipe.stream)[size..]
  {
    var buf := new Byte[size](_ => 0);
    var n := Recv(pipe, buf);
    if n.Exited? || n.count < size {
      r := None;
    } else {
      assert buf[..] == buf[..size] == old(pipe.stream)[..size];
      r := Some(FromLE(buf[..]));
    }
  }

  /** The settings the daemon keeps between commands. */
  datatype Settings = Settings(executorId: nat, timeoutUs: nat, readStdin: bool, saveOutput: bool)

  function DefaultSettings(executorId: nat): Settings
  {
    Settings(executorId, 20 * 1000, false, false)
  }

  function Apply(s: Settings, c: Command): Settings
  {
    match c
    case SetTimeout(us) => s.(timeoutUs := us)
    case ReadStdin => s.(readStdin := true)
    case SaveOutput => s.(saveOutput := true)
    case Execute => s
    case Other(_) => s
  }

  /** The settings after a list of commands. */
  function Fold(s: Settings, cs: seq<Command>): Settings
  {
    if cs == [] then s else Apply(Fold(s, cs[..|cs| - 1]), cs[|cs| - 1])
  }

  /** The settings under which each Execute of a command list runs, in order. */
  function Executions(s: Settings, cs: seq<Command>): seq<Settings>
  {
    if cs == [] then []
    else
      var rest := cs[..|cs| - 1];
      Executions(s, rest) + (if cs[|cs| - 1].Execute? then [Fold(s, rest)] else [])
  }

  /** The settings after a list of commands: the redirections asked for at any time, and the timeout
      set last, if one was set. */
  lemma {:induction false} FoldMeans(s: Settings, cs: seq<Command>)
    ensures var f := Fold(s, cs);
            && f.executorId == s.executorId
            && (f.readStdin <==> s.readStdin || ReadStdin in cs)
            && (f.saveOutput <==> s.saveOutput || SaveOutput in cs)
            && ((forall i :: 0 <= i < |cs| ==> !cs[i].SetTimeout?) ==> f.timeoutUs == s.timeoutUs)
            && forall i :: 0 <= i < |cs| && cs[i].SetTimeout? && (forall j :: i < j < |cs| ==> !cs[j].SetTimeout?) ==>
                 f.timeoutUs == cs[i].us
  {
    if cs != [] {
      var before, c := cs[..|cs| - 1], cs[|cs| - 1];
      assert cs == before + [c];
      FoldMeans(s, before);
      assert Fold(s, cs) == Apply(Fold(s, before), c);
      assert forall i :: 0 <= i < |before| ==> before[i] == cs[i];
      hide Fold;
    }
  }

  /** Reading one command: the header loop and, for the timeout, the payload loop. */
  method ReadCommand(pipe: CommandPipe) returns (c: Option<Command>)
    modifies pipe
    ensures old(pipe.NeverFails()) ==>
              pipe.NeverFails() && (c.None? <==> DecodeOne(old(pipe.stream)).None?)
    ensures c.Some? ==>
              && DecodeOne(old(pipe.stream)).Some? && DecodeOne(old(pipe.stream)).value.0 == c.value
              && pipe.stream == old(pipe.stream)[DecodeOne(old(pipe.stream)).value.1..]
  {
    ghost var s := pipe.stream;
    c := None;
    var header := RecvWord(pipe, 4);
    if header.Some? {
      if header.value == SET_TIMEOUT_CODE {
        var payload := RecvWord(pipe, 8);
        if payload.Some? {
          assert s[4..][..8] == s[4..12] && s[4..][8..] == s[12..];
          c := Some(SetTimeout(payload.value));
        }
      } else {
        c := Some(FromCode(header.value));
      }
    }
  }
}
