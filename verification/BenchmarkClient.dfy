/** The benchmark client: it attaches, configures the server and requests executions one at a time;
    what it writes is what the daemon decodes. */
module BenchmarkClient {
  import opened Bits
  import opened ForkServer
  import opened Framing
  import opened Prelude

  const ATTACH_ID: nat := 1
  const BENCHMARK_TIMEOUT_US: nat := 40 * 1000

  datatype TestCase = PlainTest | StdinTest | StdoutTest

  function SetupCommands(test: TestCase): seq<Command>
  {
    match test
    case PlainTest => []
    case StdinTest => [ReadStdin]
    case StdoutTest => [SaveOutput]
  }

  /** A tenth more executions warm the server up, if there are more than ten. */
  function TotalExecutions(n: nat): nat
  {
    (if n > 10 then n / 10 else 0) + n
  }

  function Repeated(n: nat): seq<Command>
  {
    seq(n, i => Execute)
  }

  /** How many responses arrive before the first that is missing or reports an error. */
  function GoodResponses(responses: seq<Response>): nat
  {
    if responses == [] || responses[0].error != 0 then 0 else 1 + GoodResponses(responses[1..])
  }

  /** Requests made when n are wanted: the client aborts at the first bad or missing response. */
  function Requests(n: nat, responses: seq<Response>): nat
  {
    Min(n, GoodResponses(responses) + 1)
  }

  lemma {:induction false} GoodAfter(responses: seq<Response>, k: nat)
    requires k <= GoodResponses(responses)
    ensures k <= |responses| && GoodResponses(responses[k..]) == GoodResponses(responses) - k
  {
    if k == 0 {
      assert responses[0..] == responses;
    } else {
      GoodAfter(responses[1..], k - 1);
      assert responses[1..][k - 1..] == responses[k..];
    }
  }

  function Configuration(test: TestCase): seq<Command>
  {
    SetupCommands(test) + [SetTimeout(BENCHMARK_TIMEOUT_US)]
  }

  class Client {
    var written: seq<Byte>          // bytes on the way to the server
    var incoming: seq<Response>     // responses the server will send

    constructor (responses: seq<Response>)
      ensures written == [] && incoming == responses
    {
      written, incoming := [], responses;
    }

    method Send(bytes: seq<Byte>)
      modifies this`written
      ensures written == old(written) + bytes
    {
      written := written + bytes;
    }

    method AttachToServer(id: nat)
      modifies this`written
      ensures written == old(written) + ToLE(id, 8)
    {
      Send(ToLE(id, 8));
    }

    method SendCommand(c: Command)
      requires !c.SetTimeout?
      modifies this`written
      ensures written == old(written) + Encode(c)
    {
      assert Encode(c) == ToLE(c.Code(), 4) + [] == ToLE(c.Code(), 4);
      Send(ToLE(c.Code(), 4));
    }

    method SetPUTExecutionTimeout(us: nat)
      modifies this`written
      ensures written == old(written) + Encode(SetTimeout(us))
    {
      Send(ToLE(SET_TIMEOUT_CODE, 4));
      Send(ToLE(us, 8));
      Associative(old(written), ToLE(SET_TIMEOUT_CODE, 4), ToLE(us, 8));
    }

    /** One request and its response; a missing response, or one that reports an error, fails the
        assertion that ends the client. */
    method ExecutePUT() returns (ok: bool)
      modifies this
      ensures written == old(written) + Encode(Execute)
      ensures ok <==> old(incoming) != [] && old(incoming)[0].error == 0
      ensures incoming == if old(incoming) == [] then [] else old(incoming)[1..]
    {
      SendCommand(Execute);
      ok := false;
      if incoming != [] {
        ok := incoming[0].error == 0;
        incoming := incoming[1..];
      }
    }

    method SetupTest(test: TestCase)
      modifies this`written
      ensures written == old(written) + EncodeAll(SetupCommands(test))
    {
      SetupEncoded();
      hide EncodeAll, Encode;
      match test
      case PlainTest =>
      case StdinTest => SendCommand(ReadStdin);
      case StdoutTest => SendCommand(SaveOutput);
    }

    /** Up to n requests in a row. */
    method ExecuteMany(n: nat) returns (ok: bool)
      modifies this
      ensures ok <==> n <= GoodResponses(old(incoming))
      ensures written == old(written) + EncodeAll(Repeated(Requests(n, old(incoming))))
      ensures ok ==> n <= |old(incoming)| && incoming == old(incoming)[n..]
    {
      NoRequests(written);
      hide EncodeAll, Encode, Repeated;
      for i := 0 to n
        invariant i <= GoodResponses(old(incoming)) && i <= |old(incoming)|
        invariant incoming == old(incoming)[i..]
        invariant written == old(written) + EncodeAll(Repeated(i))
      {
        GoodAfter(old(incoming), i);
        OneMoreRequest(old(written), i);
        ok := ExecutePUT();
        if !ok {
          return;
        }
        GoodAfter(old(incoming), i + 1);
      }
      return true;
    }

    /** The warm-up and the measured executions. */
    method Measure(n: nat) returns (ok: bool)
      modifies this
      ensures ok <==> TotalExecutions(n) <= GoodResponses(old(incoming))
      ensures written == old(written) + EncodeAll(Repeated(Requests(TotalExecutions(n), old(incoming))))
    {
      hide EncodeAll, Repeated, GoodResponses;
      if n > 10 {
        ok := ExecuteMany(n / 10);
        if !ok {
          return;
        }
        GoodAfter(old(incoming), n / 10);
        MoreRequests(old(written), n / 10, Requests(n, incoming));
      }
      ok := ExecuteMany(n);
    }

    /** The whole benchmark, or as much of it as the responses allow. */
    method Run(test: TestCase, n: nat) returns (ok: bool)
      requires written == []
      modifies this
      ensures ok <==> TotalExecutions(n) <= GoodResponses(old(incoming))
      ensures written == ToLE(1, 8) +
                         EncodeAll(Configuration(test) + Repeated(Requests(TotalExecutions(n), old(incoming))))
    {
      AttachToServer(ATTACH_ID);
      SetupTest(test);
      SetPUTExecutionTimeout(BENCHMARK_TIMEOUT_US);
      assert [] + ToLE(ATTACH_ID, 8) == ToLE(ATTACH_ID, 8);
      hide Configuration, SetupCommands, EncodeAll, Encode, Repeated, ToLE, GoodResponses;
      ok := Measure(n);
      WrittenInOrder(test, Requests(TotalExecutions(n), old(incoming)));
    }
  }

  lemma SetupEncoded()
    ensures EncodeAll([]) == [] && EncodeAll([ReadStdin]) == Encode(ReadStdin)
    ensures EncodeAll([SaveOutput]) == Encode(SaveOutput)
  {
    assert [ReadStdin][..0] == [] && [SaveOutput][..0] == [];
    hide Encode;
  }

  lemma NoRequests(bytes: seq<Byte>)
    ensures bytes + EncodeAll(Repeated(0)) == bytes
  {
  }

  lemma OneMoreRequest(bytes: seq<Byte>, i: nat)
    ensures bytes + EncodeAll(Repeated(i)) + Encode(Execute) == bytes + EncodeAll(Repeated(i + 1))
  {
    assert Repeated(i + 1)[..i] == Repeated(i);
    Associative(bytes, EncodeAll(Repeated(i)), Encode(Execute));
  }

  lemma MoreRequests(bytes: seq<Byte>, k: nat, n: nat)
    ensures bytes + EncodeAll(Repeated(k)) + EncodeAll(Repeated(n)) == bytes + EncodeAll(Repeated(k + n))
  {
    assert Repeated(k) + Repeated(n) == Repeated(k + n);
    EncodeAllAppend(Repeated(k), Repeated(n));
    hide *;
    Associative(bytes, EncodeAll(Repeated(k)), EncodeAll(Repeated(n)));
  }

  lemma WrittenInOrder(test: TestCase, n: nat)
    ensures ToLE(ATTACH_ID, 8) + EncodeAll(SetupCommands(test)) + Encode(SetTimeout(BENCHMARK_TIMEOUT_US)) +
            EncodeAll(Repeated(n)) ==
            ToLE(ATTACH_ID, 8) + EncodeAll(Configuration(test) + Repeated(n))
  {
    var setup, timeout := SetupCommands(test), [SetTimeout(BENCHMARK_TIMEOUT_US)];
    assert timeout[..0] == [] && EncodeAll(timeout) == [] + Encode(timeout[0]) == Encode(timeout[0]);
    EncodeAllAppend(setup, timeout);
    EncodeAllAppend(setup + timeout, Repeated(n));
    assert Configuration(test) == setup + timeout;
    hide *;
    var a, b, c, d := ToLE(ATTACH_ID, 8), EncodeAll(setup), EncodeAll(timeout), EncodeAll(Repeated(n));
    Associative(a, b, c);
    Associative(a, b + c, d);
  }

  lemma {:induction false} RepeatedExecutions(s: Settings, cs: seq<Command>, n: nat)
    ensures Fold(s, cs + Repeated(n)) == Fold(s, cs)
    ensures Executions(s, cs + Repeated(n)) == Executions(s, cs) + seq(n, i => Fold(s, cs))
  {
    if n == 0 {
      assert cs + Repeated(0) == cs;
    } else {
      assert (cs + Repeated(n))[..|cs| + n - 1] == cs + Repeated(n - 1);
      RepeatedExecutions(s, cs, n - 1);
    }
  }

  /** End to end: the daemon reads the client's id and then decodes exactly the executions requested,
      every one under the benchmark's timeout and the test's redirections; n of them, and a tenth more
      above ten, if the responses come. */
  lemma BenchmarkIsServed(test: TestCase, n: nat, responses: seq<Response>)
    ensures var m := Requests(TotalExecutions(n), responses);
            var sent := ToLE(1, 8) + EncodeAll(Configuration(test) + Repeated(m));
            && FromLE(sent[..8]) == 1
            && Executions(DefaultSettings(1), DecodeAll(sent[8..])) ==
               seq(m, i => Settings(1, 40_000, test.StdinTest?, test.StdoutTest?))
    ensures TotalExecutions(n) == if n > 10 then n + n / 10 else n
  {
    hide *;
    RequestsAreServed(test, Requests(TotalExecutions(n), responses));
    TotalIs(n);
  }

  lemma TotalIs(n: nat)
    ensures TotalExecutions(n) == if n > 10 then n + n / 10 else n
  {
  }

  lemma RequestsAreServed(test: TestCase, m: nat)
    ensures var sent := ToLE(1, 8) + EncodeAll(Configuration(test) + Repeated(m));
            && FromLE(sent[..8]) == 1
            && Executions(DefaultSettings(1), DecodeAll(sent[8..])) ==
               seq(m, i => Settings(1, 40_000, test.StdinTest?, test.StdoutTest?))
  {
    var cs := Configuration(test) + Repeated(m);
    var sent := ToLE(ATTACH_ID, 8) + EncodeAll(cs);
    assert sent[..8] == ToLE(ATTACH_ID, 8) && sent[8..] == EncodeAll(cs);
    Pow256Values();
    FromToLE(ATTACH_ID, 8);
    hide ToLE, FromLE, EncodeAll, DecodeAll, Executions, Fold, Configuration;
    ServedAsSent(DefaultSettings(ATTACH_ID), cs);
    RepeatedExecutions(DefaultSettings(ATTACH_ID), Configuration(test), m);
    ConfigurationFolds(test);
  }

  lemma ConfigurationFolds(test: TestCase)
    ensures Fold(DefaultSettings(ATTACH_ID), Configuration(test)) ==
            Settings(ATTACH_ID, BENCHMARK_TIMEOUT_US, test.StdinTest?, test.StdoutTest?)
    ensures Executions(DefaultSettings(ATTACH_ID), Configuration(test)) == []
  {
    var s, setup := DefaultSettings(ATTACH_ID), SetupCommands(test);
    assert Configuration(test)[..|setup|] == setup;
    assert setup[..0] == [] && Fold(s, []) == s && Executions(s, []) == [];
    match test {
      case PlainTest =>
      case StdinTest => assert setup[..|setup| - 1] == [];
      case StdoutTest => assert setup[..|setup| - 1] == [];
    }
    assert Executions(s, setup) == [] + [];
  }
}
