/** The IJON state register and its shift log, for any map size and any sequence of calls. */
module IjonState {
  import opened Bits

  const MAP_SIZE: nat := 0x1_0000

  datatype Registers = Registers(state: nat, log: nat)

  function XorState(r: Registers, val: nat, mapSize: nat): Registers
    requires mapSize > 0
  {
    r.(state := Xor(r.state, val) % mapSize)
  }

  /** (log << 8) | (x & 0xff) in 32 bits */
  function NextLog(log: nat, x: nat): nat
  {
    (log * 256) % WORD32 + x % 256
  }

  function PushState(r: Registers, x: nat, mapSize: nat): Registers
    requires mapSize > 0
  {
    var r1 := XorState(r, r.log, mapSize);
    var r2 := r1.(log := NextLog(r.log, x));
    XorState(r2, r2.log, mapSize)
  }

  datatype StateCall = CallXor(val: nat) | CallPush(x: nat)

  function Perform(r: Registers, c: StateCall, mapSize: nat): Registers
    requires mapSize > 0
  {
    match c
    case CallXor(val) => XorState(r, val, mapSize)
    case CallPush(x) => PushState(r, x, mapSize)
  }

  function PerformAll(r: Registers, cs: seq<StateCall>, mapSize: nat): Registers
    requires mapSize > 0
  {
    if cs == [] then r else Perform(PerformAll(r, cs[..|cs| - 1], mapSize), cs[|cs| - 1], mapSize)
  }

  /** Exclusive or of all arguments of `ijon_xor_state`. */
  function Xored(cs: seq<StateCall>): nat
  {
    if cs == [] then 0
    else
      var rest, c := Xored(cs[..|cs| - 1]), cs[|cs| - 1];
      if c.CallXor? then Xor(rest, c.val) else rest
  }

  // ----- telescoping -----

  /** Reducing modulo a power of two commutes with exclusive or. */
  lemma XorLowAbsorbs(a: nat, b: nat, k: nat)
    ensures Low(Xor(Low(a, k), b), k) == Low(Xor(a, b), k)
  {
    ShrLowIsDivMod(a, k);
    LowBelow(Low(a, k), k);
    XorLow(Low(a, k), b, k);
    XorLow(a, b, k);
  }

  /** Pushing adds the old and the new log to the state; what was pushed before cancels. */
  lemma PushTelescopes(r: Registers, x: nat, k: nat)
    ensures PushState(r, x, Pow2(k)).state == Low(Xor(Xor(r.state, r.log), NextLog(r.log, x)), k)
  {
    var s, log' := Xor(r.state, r.log), NextLog(r.log, x);
    ShrLowIsDivMod(s, k);
    ShrLowIsDivMod(Xor(Low(s, k), log'), k);
    XorLowAbsorbs(s, log', k);
  }

  /** (((a ^ l0) ^ l) ^ u) combined with the step's two logs. */
  lemma XorTelescopes(a: nat, l0: nat, l: nat, l': nat, u: nat)
    ensures Xor(Xor(Xor(Xor(Xor(a, l0), l), u), l), l') == Xor(Xor(Xor(a, l0), l'), u)
  {
    var b := Xor(a, l0);
    XorAssoc(b, l, u);
    XorComm(l, u);
    XorAssoc(b, u, l);
    XorCancel(Xor(b, u), l);
    XorAssoc(b, u, l');
    XorComm(u, l');
    XorAssoc(b, l', u);
  }

  lemma PushStepLow(m: Registers, x: nat, closed: nat, a: nat, l0: nat, u: nat, k: nat)
    requires closed == Xor(Xor(Xor(a, l0), m.log), u) && Low(m.state, k) == Low(closed, k)
    ensures var log' := NextLog(m.log, x);
            Low(PushState(m, x, Pow2(k)).state, k) == Low(Xor(Xor(Xor(a, l0), log'), u), k)
  {
    var log' := NextLog(m.log, x);
    PushTelescopes(m, x, k);
    hide *;
    ShrLowIsDivMod(Xor(Xor(m.state, m.log), log'), k);
    LowBelow(Low(Xor(Xor(m.state, m.log), log'), k), k);
    XorAssoc(m.state, m.log, log');
    XorAssoc(closed, m.log, log');
    XorLowAbsorbs(m.state, Xor(m.log, log'), k);
    XorLowAbsorbs(closed, Xor(m.log, log'), k);
    XorTelescopes(a, l0, m.log, log', u);
  }

  lemma XorStepLow(m: Registers, val: nat, closed: nat, a: nat, u: nat, k: nat)
    requires closed == Xor(a, u) && Low(m.state, k) == Low(closed, k)
    ensures Low(XorState(m, val, Pow2(k)).state, k) == Low(Xor(a, Xor(u, val)), k)
  {
    ShrLowIsDivMod(Xor(m.state, val), k);
    LowBelow(Low(Xor(m.state, val), k), k);
    XorLowAbsorbs(m.state, val, k);
    XorLowAbsorbs(closed, val, k);
    XorAssoc(a, u, val);
  }

  lemma {:induction false} TelescopesLow(r: Registers, cs: seq<StateCall>, k: nat)
    ensures var r' := PerformAll(r, cs, Pow2(k));
            Low(r'.state, k) == Low(Xor(Xor(Xor(r.state, r.log), r'.log), Xored(cs)), k)
  {
    if cs == [] {
      XorCancel(r.state, r.log);
      XorZero(r.state);
    } else {
      var before, c := cs[..|cs| - 1], cs[|cs| - 1];
      var m := PerformAll(r, before, Pow2(k));
      var closed := Xor(Xor(Xor(r.state, r.log), m.log), Xored(before));
      TelescopesLow(r, before, k);
      if c.CallPush? {
        PushStepLow(m, c.x, closed, r.state, r.log, Xored(before), k);
      } else {
        XorStepLow(m, c.val, closed, Xor(Xor(r.state, r.log), m.log), Xored(before), k);
      }
    }
  }

  /** After any sequence of pushes and xors with a map of 2^k entries, the state is determined by
      the first and the last log and the xor arguments; intermediate logs have cancelled. */
  lemma StateTelescopes(r: Registers, cs: seq<StateCall>, k: nat)
    requires cs != [] || r.state < Pow2(k)
    ensures var r' := PerformAll(r, cs, Pow2(k));
            r'.state == Xor(Xor(Xor(r.state, r.log), r'.log), Xored(cs)) % Pow2(k)
  {
    var r' := PerformAll(r, cs, Pow2(k));
    assert r'.state < Pow2(k);
    hide *;
    TelescopesLow(r, cs, k);
    LowBelow(r'.state, k);
    ShrLowIsDivMod(Xor(Xor(Xor(r.state, r.log), r'.log), Xored(cs)), k);
  }

  // ----- the default size -----

  predicate OnlyPushes(cs: seq<StateCall>)
  {
    forall i :: 0 <= i < |cs| ==> cs[i].CallPush?
  }

  lemma {:induction false} PushesXorNothing(cs: seq<StateCall>)
    requires OnlyPushes(cs)
    ensures Xored(cs) == 0
  {
    if cs != [] {
      PushesXorNothing(cs[..|cs| - 1]);
    }
  }

  lemma StateIsLowLog(cs: seq<StateCall>)
    requires OnlyPushes(cs) && cs != []
    ensures var r := PerformAll(Registers(0, 0), cs, MAP_SIZE);
            r.state == r.log % MAP_SIZE
  {
    assert Pow2(8) == 256;
    Pow2Add(8, 8);
    hide *;
    StateTelescopes(Registers(0, 0), cs, 16);
    PushesXorNothing(cs);
    var log := PerformAll(Registers(0, 0), cs, MAP_SIZE).log;
    XorZero(0);
    XorZero(log);
  }

  /** With the default map and both registers zero, the state holds the low bytes of the last two
      pushed values and nothing else: (previous & 0xff) << 8 | (last & 0xff). */
  lemma StateIsLastTwoPushes(cs: seq<StateCall>)
    requires OnlyPushes(cs) && cs != []
    ensures var n := |cs|;
            PerformAll(Registers(0, 0), cs, MAP_SIZE).state ==
            256 * (if n == 1 then 0 else cs[n - 2].x % 256) + cs[n - 1].x % 256
  {
    var n, zero := |cs|, Registers(0, 0);
    StateIsLowLog(cs);
    var log := PerformAll(zero, cs, MAP_SIZE).log;
    var before := PerformAll(zero, cs[..n - 1], MAP_SIZE);
    assert log == NextLog(before.log, cs[n - 1].x);
    if n == 1 {
      assert before.log == 0;
    } else {
      var first := PerformAll(zero, cs[..n - 2], MAP_SIZE);
      assert cs[..n - 1][..n - 2] == cs[..n - 2];
      assert before.log == NextLog(first.log, cs[n - 2].x);
      LowBytes(first.log, cs[n - 2].x);
    }
    LowBytes(before.log, cs[n - 1].x);
  }

  lemma LowBytes(log: nat, x: nat)
    ensures NextLog(log, x) % MAP_SIZE == 256 * (log % 256) + x % 256
    ensures NextLog(log, x) % 256 == x % 256
  {
    var t, b := log % 0x100_0000, x % 256;
    assert log == 0x100_0000 * (log / 0x100_0000) + t && t == 256 * (t / 256) + t % 256;
    DivUnique(log * 256, WORD32, log / 0x100_0000, 256 * t);
    DivUnique(256 * t + b, MAP_SIZE, t / 256, 256 * (t % 256) + b);
    DivUnique(256 * t + b, 256, t, b);
    DivUnique(log, 256, 0x1_0000 * (log / 0x100_0000) + t / 256, t % 256);
  }

  // ----- nested contexts -----

  /** What runs inside one IJON_CTX and after it: contexts, properly nested, and any other calls. */
  datatype Nest = Done | Ctx(hash: nat, inner: Nest, rest: Nest) | Other(call: StateCall, rest: Nest)

  predicate HashesBelow(n: Nest, bound: nat)
  {
    match n
    case Done => true
    case Ctx(h, inner, rest) => h < bound && HashesBelow(inner, bound) && HashesBelow(rest, bound)
    case Other(_, rest) => HashesBelow(rest, bound)
  }

  /** Each IJON_CTX adds its hash before and again after its argument. */
  function Calls(n: Nest): seq<StateCall>
  {
    match n
    case Done => []
    case Ctx(h, inner, rest) => [CallXor(h)] + Calls(inner) + [CallXor(h)] + Calls(rest)
    case Other(call, rest) => [call] + Calls(rest)
  }

  /** The same calls without any context. */
  function Bare(n: Nest): seq<StateCall>
  {
    match n
    case Done => []
    case Ctx(_, inner, rest) => Bare(inner) + Bare(rest)
    case Other(call, rest) => [call] + Bare(rest)
  }

  /** The arguments of `ijon_push_state`, which alone decide the log. */
  function Pushed(cs: seq<StateCall>): seq<nat>
  {
    if cs == [] then []
    else
      var c := cs[|cs| - 1];
      Pushed(cs[..|cs| - 1]) + (if c.CallPush? then [c.x] else [])
  }

  function LogAfter(log: nat, xs: seq<nat>): nat
  {
    if xs == [] then log else NextLog(LogAfter(log, xs[..|xs| - 1]), xs[|xs| - 1])
  }

  lemma {:induction false} LogIsPushed(r: Registers, cs: seq<StateCall>, mapSize: nat)
    requires mapSize > 0
    ensures PerformAll(r, cs, mapSize).log == LogAfter(r.log, Pushed(cs))
  {
    if cs != [] {
      var before, c := cs[..|cs| - 1], cs[|cs| - 1];
      LogIsPushed(r, before, mapSize);
      if c.CallPush? {
        assert (Pushed(before) + [c.x])[..|Pushed(before)|] == Pushed(before);
      } else {
        assert Pushed(before) + [] == Pushed(before);
      }
      hide NextLog, Xor;
    }
  }

  lemma {:induction false} PushedAppend(a: seq<StateCall>, b: seq<StateCall>)
    ensures Pushed(a + b) == Pushed(a) + Pushed(b)
  {
    if b == [] {
      assert a + b == a;
    } else {
      assert (a + b)[..|a + b| - 1] == a + b[..|b| - 1];
      PushedAppend(a, b[..|b| - 1]);
    }
  }

  lemma {:induction false} XoredAppend(a: seq<StateCall>, b: seq<StateCall>)
    ensures Xored(a + b) == Xor(Xored(a), Xored(b))
  {
    if b == [] {
      assert a + b == a;
      XorZero(Xored(a));
    } else {
      assert (a + b)[..|a + b| - 1] == a + b[..|b| - 1];
      XoredAppend(a, b[..|b| - 1]);
      if b[|b| - 1].CallXor? {
        XorAssoc(Xored(a), Xored(b[..|b| - 1]), b[|b| - 1].val);
      }
    }
  }

  /** A map of 2^k entries cannot tell apart calls with the same pushes and the same xor sum. */
  lemma SameEffect(r: Registers, cs: seq<StateCall>, ds: seq<StateCall>, k: nat)
    requires r.state < Pow2(k) && Xored(cs) == Xored(ds) && Pushed(cs) == Pushed(ds)
    ensures PerformAll(r, cs, Pow2(k)) == PerformAll(r, ds, Pow2(k))
  {
    hide *;
    StateTelescopes(r, cs, k);
    StateTelescopes(r, ds, k);
    LogIsPushed(r, cs, Pow2(k));
    LogIsPushed(r, ds, Pow2(k));
  }

  /** Opening and closing a context cancels. */
  lemma AroundCancels(h: nat, cs: seq<StateCall>)
    ensures Xored([CallXor(h)] + cs + [CallXor(h)]) == Xored(cs)
    ensures Pushed([CallXor(h)] + cs + [CallXor(h)]) == Pushed(cs)
  {
    var x := [CallXor(h)];
    assert x[..0] == [] && Xored(x) == Xor(0, h) && Pushed(x) == [] + [] == [];
    assert [] + Pushed(cs) + [] == Pushed(cs);
    XorZero(h);
    hide *;
    XoredAppend(x, cs);
    XoredAppend(x + cs, x);
    PushedAppend(x, cs);
    PushedAppend(x + cs, x);
    XorComm(h, Xored(cs));
    XorCancel(Xored(cs), h);
  }

  /** A context around any calls whatever is transparent for a map of 2^k entries. */
  lemma ContextIsTransparent(r: Registers, h: nat, cs: seq<StateCall>, k: nat)
    requires r.state < Pow2(k)
    ensures PerformAll(r, [CallXor(h)] + cs + [CallXor(h)], Pow2(k)) == PerformAll(r, cs, Pow2(k))
  {
    AroundCancels(h, cs);
    SameEffect(r, [CallXor(h)] + cs + [CallXor(h)], cs, k);
  }

  lemma {:induction false} NestCancels(n: Nest)
    ensures Xored(Calls(n)) == Xored(Bare(n)) && Pushed(Calls(n)) == Pushed(Bare(n))
  {
    match n
    case Done =>
    case Ctx(h, inner, rest) =>
      NestCancels(inner);
      NestCancels(rest);
      var around := [CallXor(h)] + Calls(inner) + [CallXor(h)];
      assert Calls(n) == around + Calls(rest) && Bare(n) == Bare(inner) + Bare(rest);
      hide *;
      AroundCancels(h, Calls(inner));
      XoredAppend(around, Calls(rest));
      PushedAppend(around, Calls(rest));
      XoredAppend(Bare(inner), Bare(rest));
      PushedAppend(Bare(inner), Bare(rest));
    case Other(call, rest) =>
      NestCancels(rest);
      assert Calls(n) == [call] + Calls(rest) && Bare(n) == [call] + Bare(rest);
      hide *;
      XoredAppend([call], Calls(rest));
      PushedAppend([call], Calls(rest));
      XoredAppend([call], Bare(rest));
      PushedAppend([call], Bare(rest));
  }

  /** Contexts change nothing: every nesting acts on every state below the map size as its calls
      would without the contexts. */
  ghost predicate ContextsRestore(mapSize: nat)
    requires mapSize > 0
  {
    forall r: Registers, n: Nest | r.state < mapSize && HashesBelow(n, WORD32) ::
      PerformAll(r, Calls(n), mapSize) == PerformAll(r, Bare(n), mapSize)
  }

  /** With 2^k entries every nesting is transparent; one of contexts alone restores both registers. */
  lemma PowerOfTwoRestores(r: Registers, n: Nest, k: nat)
    requires r.state < Pow2(k)
    ensures PerformAll(r, Calls(n), Pow2(k)) == PerformAll(r, Bare(n), Pow2(k))
    ensures Bare(n) == [] ==> PerformAll(r, Calls(n), Pow2(k)) == r
  {
    NestCancels(n);
    SameEffect(r, Calls(n), Bare(n), k);
    hide Calls, Bare, Perform;
  }

  /** For the size 2^j + r with 0 < r < 2^j, the state r is lost by one context of hash 2^j. */
  lemma OtherSizeForgets(m: nat, j: nat)
    requires Pow2(j) < m < 2 * Pow2(j)
    ensures var r := Registers(m - Pow2(j), 0);
            PerformAll(r, Calls(Ctx(Pow2(j), Done, Done)), m).state == Pow2(j) != r.state
  {
    var h, s := Pow2(j), m - Pow2(j);
    hide Xor, PerformAll, Calls, Pow2;
    OneContext(Registers(s, 0), h, m);
    XorAboveIsSum(s, j);
    XorZero(h);
    DivUnique(m, m, 1, 0);
    DivUnique(h, m, 0, h);
    assert XorState(Registers(s, 0), h, m) == Registers(m % m, 0);
    assert XorState(Registers(m % m, 0), h, m) == Registers(h % m, 0);
  }

  lemma OneContext(r: Registers, h: nat, m: nat)
    requires m > 0
    ensures PerformAll(r, Calls(Ctx(h, Done, Done)), m) == XorState(XorState(r, h, m), h, m)
  {
    hide XorState;
    var cs := [CallXor(h), CallXor(h)];
    assert Calls(Done) == [];
    assert Calls(Ctx(h, Done, Done)) == cs;
    assert cs[..1] == [CallXor(h)] && cs[..1][..0] == [];
    assert PerformAll(r, cs[..1][..0], m) == r;
  }

  /** Nested contexts change nothing, for every nesting, every other calls among them and every state
      below the map size, exactly when the map size is a power of two. */
  lemma ContextsRestoreIffPowerOfTwo(m: nat)
    requires 0 < m < WORD32
    ensures ContextsRestore(m) <==> IsPowerOfTwo(m)
  {
    var j := BetweenPowers(m);
    if Pow2(j) == m {
      forall r: Registers, n: Nest | r.state < m && HashesBelow(n, WORD32)
        ensures PerformAll(r, Calls(n), m) == PerformAll(r, Bare(n), m)
      {
        PowerOfTwoRestores(r, n, j);
      }
    } else {
      var r, n := Registers(m - Pow2(j), 0), Ctx(Pow2(j), Done, Done);
      OtherSizeForgets(m, j);
      assert HashesBelow(n, WORD32);
      assert Bare(n) == [] + [];
      assert PerformAll(r, Calls(n), m) != r == PerformAll(r, Bare(n), m);
      forall k: nat
        ensures Pow2(k) != m
      {
        Pow2Monotone(k, j);
        Pow2Monotone(j + 1, k);
      }
    }
  }
}
