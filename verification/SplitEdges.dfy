/** Splitting of critical edges: the transformation, the in-place pass that performs
    it, and the proof that the split program behaves like the original. */
module SplitEdges {
  import opened Ir

  /** The index-th outgoing edge of block `from`; parallel edges stay distinct. */
  datatype Edge = Edge(from: nat, index: nat)

  predicate IsEdge(g: seq<Block>, e: Edge)
  {
    e.from < |g| && e.index < |g[e.from].succs|
  }

  function Target(g: seq<Block>, e: Edge): nat
    requires IsEdge(g, e)
  {
    g[e.from].succs[e.index]
  }

  predicate Closed(g: seq<Block>)
  {
    forall b, i :: 0 <= b < |g| && 0 <= i < |g[b].succs| ==> g[b].succs[i] < |g|
  }

  /** At least two edges enter v: `hasNPredecessorsOrMore(2)`. */
  predicate TwoPreds(g: seq<Block>, v: nat)
  {
    exists u, i, w, j ::
      0 <= u < |g| && 0 <= i < |g[u].succs| && 0 <= w < |g| && 0 <= j < |g[w].succs| &&
      (u != w || i != j) && g[u].succs[i] == v && g[w].succs[j] == v
  }

  /** The edges into v, parallel ones counted apart. */
  function InEdges(g: seq<Block>, v: nat): (r: set<Edge>)
    ensures forall e :: e in r <==> IsEdge(g, e) && Target(g, e) == v
  {
    set u, i | 0 <= u < |g| && 0 <= i < |g[u].succs| && g[u].succs[i] == v :: Edge(u, i)
  }

  /** The test is one for an in-degree of two or more. */
  lemma TwoPredsIsInDegree(g: seq<Block>, v: nat)
    ensures TwoPreds(g, v) <==> |InEdges(g, v)| >= 2
  {
    if TwoPreds(g, v) {
      var d, e := TwoDifferent(g, v);
      Smaller({d, e}, InEdges(g, v));
    }
    if |InEdges(g, v)| >= 2 {
      TwoInEdges(g, v);
    }
  }

  lemma TwoInEdges(g: seq<Block>, v: nat)
    requires |InEdges(g, v)| >= 2
    ensures TwoPreds(g, v)
  {
    var s := InEdges(g, v);
    var d :| d in s;
    assert |s - {d}| >= 1;
    var e :| e in s - {d};
    assert g[d.from].succs[d.index] == v && g[e.from].succs[e.index] == v;
  }

  lemma TwoDifferent(g: seq<Block>, v: nat) returns (d: Edge, e: Edge)
    requires TwoPreds(g, v)
    ensures d != e && d in InEdges(g, v) && e in InEdges(g, v)
  {
    var u, i, w, j :|
      0 <= u < |g| && 0 <= i < |g[u].succs| && 0 <= w < |g| && 0 <= j < |g[w].succs| &&
      (u != w || i != j) && g[u].succs[i] == v && g[w].succs[j] == v;
    d, e := Edge(u, i), Edge(w, j);
  }

  lemma Smaller<T>(a: set<T>, b: set<T>)
    requires a <= b
    ensures |a| <= |b|
  {
    assert b == a + (b - a);
  }

  /** The edge leaves a branching block and enters a joining block. */
  predicate Critical(g: seq<Block>, e: Edge)
    requires IsEdge(g, e)
  {
    |g[e.from].succs| > 1 && TwoPreds(g, Target(g, e))
  }

  /** Block b carries one edge of `origin` to its old target. */
  ghost predicate IsFresh(before: seq<Block>, after: seq<Block>, origin: seq<Edge>, b: nat)
    requires |before| <= b < |after| == |before| + |origin|
  {
    var e := origin[b - |before|];
    && IsEdge(before, e) && IsEdge(after, e) && Target(after, e) == b
    && after[b] == Block([], 0, [Target(before, e)])
  }

  /** `after` is `before` with the edges in `origin` routed through fresh blocks, in order. */
  ghost predicate IsSplit(before: seq<Block>, after: seq<Block>, origin: seq<Edge>)
  {
    && |after| == |before| + |origin|
    && (forall u :: 0 <= u < |before| ==>
          after[u].body == before[u].body && after[u].term == before[u].term &&
          |after[u].succs| == |before[u].succs|)
    && (forall b :: |before| <= b < |after| ==> IsFresh(before, after, origin, b))
    && (forall e :: IsEdge(before, e) && e !in origin ==> Target(after, e) == Target(before, e))
  }

  /** Exactly the critical edges have been split. */
  ghost predicate IsFullySplit(before: seq<Block>, after: seq<Block>, origin: seq<Edge>)
  {
    && IsSplit(before, after, origin)
    && forall e :: e in origin <==> IsEdge(before, e) && Critical(before, e)
  }

  function SplitOne(g: seq<Block>, e: Edge): seq<Block>
    requires IsEdge(g, e)
  {
    var b := g[e.from];
    g[e.from := b.(succs := b.succs[e.index := |g|])] + [Block([], 0, [Target(g, e)])]
  }

  /** Every split edge leads to its own fresh block, and that block back to the old target. */
  lemma OriginTargets(before: seq<Block>, after: seq<Block>, origin: seq<Edge>)
    requires IsSplit(before, after, origin)
    ensures forall e :: e in origin ==>
              IsEdge(before, e) && |before| <= Target(after, e) < |after| &&
              origin[Target(after, e) - |before|] == e &&
              after[Target(after, e)] == Block([], 0, [Target(before, e)])
  {
    forall e | e in origin
      ensures IsEdge(before, e) && |before| <= Target(after, e) < |after|
      ensures origin[Target(after, e) - |before|] == e
      ensures after[Target(after, e)] == Block([], 0, [Target(before, e)])
    {
      var k :| 0 <= k < |origin| && origin[k] == e;
      var b := |before| + k;
      assert IsFresh(before, after, origin, b);
    }
  }

  lemma SplitOneExtends(before: seq<Block>, g: seq<Block>, origin: seq<Edge>, e: Edge)
    requires IsSplit(before, g, origin) && IsEdge(before, e) && e !in origin
    ensures IsSplit(before, SplitOne(g, e), origin + [e])
  {
    var after, origin' := SplitOne(g, e), origin + [e];
    assert Target(g, e) == Target(before, e);
    forall b | |before| <= b < |after|
      ensures IsFresh(before, after, origin', b)
    {
      if b < |g| {
        assert IsFresh(before, g, origin, b);
        assert origin[b - |before|] in origin;
      }
    }
    forall d | IsEdge(before, d) && d !in origin'
      ensures Target(after, d) == Target(before, d)
    {
      assert d !in origin && d != e by {
        assert forall x :: x in origin + [e] <==> x in origin || x == e;
      }
      assert Target(g, d) == Target(before, d);
    }
  }

  /** The edge of `before` that a given edge of `after` into an old block carries on. */
  ghost function Ancestor(before: seq<Block>, origin: seq<Edge>, e: Edge): Edge
  {
    if |before| <= e.from < |before| + |origin| then origin[e.from - |before|] else e
  }

  lemma AncestorKeepsTarget(before: seq<Block>, after: seq<Block>, origin: seq<Edge>, e: Edge)
    requires IsSplit(before, after, origin)
    requires IsEdge(after, e) && Target(after, e) < |before|
    ensures IsEdge(before, Ancestor(before, origin, e))
    ensures Target(before, Ancestor(before, origin, e)) == Target(after, e)
    ensures e.from < |before| <==> Ancestor(before, origin, e) !in origin
    ensures e.from >= |before| ==> e == Edge(Target(after, Ancestor(before, origin, e)), 0)
  {
    OriginTargets(before, after, origin);
    assert e.from >= |before| ==> IsFresh(before, after, origin, e.from);
  }

  /** The edge of `after` that enters the target of e on behalf of e. */
  ghost function Carrier(after: seq<Block>, origin: seq<Edge>, e: Edge): Edge
    requires IsEdge(after, e)
  {
    if e in origin then Edge(Target(after, e), 0) else e
  }

  lemma CarrierTarget(before: seq<Block>, after: seq<Block>, origin: seq<Edge>, e: Edge)
    requires IsSplit(before, after, origin) && IsEdge(before, e)
    ensures IsEdge(after, e)
    ensures IsEdge(after, Carrier(after, origin, e))
    ensures Target(after, Carrier(after, origin, e)) == Target(before, e)
    ensures Ancestor(before, origin, Carrier(after, origin, e)) == e
  {
    OriginTargets(before, after, origin);
  }

  /** Splitting changes no block's number of incoming edges from below two to two or back. */
  lemma TwoPredsKept(before: seq<Block>, after: seq<Block>, origin: seq<Edge>, v: nat)
    requires IsSplit(before, after, origin) && v < |before|
    ensures TwoPreds(after, v) <==> TwoPreds(before, v)
  {
    if TwoPreds(after, v) {
      TwoPredsOnlyIf(before, after, origin, v);
    }
    if TwoPreds(before, v) {
      TwoPredsIf(before, after, origin, v);
    }
  }

  lemma TwoEdgesGiveTwoPreds(g: seq<Block>, d: Edge, e: Edge)
    requires IsEdge(g, d) && IsEdge(g, e) && d != e && Target(g, d) == Target(g, e)
    ensures TwoPreds(g, Target(g, d))
  {
    assert g[d.from].succs[d.index] == g[e.from].succs[e.index];
  }

  lemma TwoPredsGiveTwoEdges(g: seq<Block>, v: nat) returns (d: Edge, e: Edge)
    requires TwoPreds(g, v)
    ensures IsEdge(g, d) && IsEdge(g, e) && d != e && Target(g, d) == v && Target(g, e) == v
  {
    var u, i, w, j :|
      0 <= u < |g| && 0 <= i < |g[u].succs| && 0 <= w < |g| && 0 <= j < |g[w].succs| &&
      (u != w || i != j) && g[u].succs[i] == v && g[w].succs[j] == v;
    d, e := Edge(u, i), Edge(w, j);
  }

  lemma TwoPredsOnlyIf(before: seq<Block>, after: seq<Block>, origin: seq<Edge>, v: nat)
    requires IsSplit(before, after, origin) && v < |before| && TwoPreds(after, v)
    ensures TwoPreds(before, v)
  {
    var d, e := TwoPredsGiveTwoEdges(after, v);
    AncestorKeepsTarget(before, after, origin, d);
    AncestorKeepsTarget(before, after, origin, e);
    TwoEdgesGiveTwoPreds(before, Ancestor(before, origin, d), Ancestor(before, origin, e));
  }

  lemma TwoPredsIf(before: seq<Block>, after: seq<Block>, origin: seq<Edge>, v: nat)
    requires IsSplit(before, after, origin) && v < |before| && TwoPreds(before, v)
    ensures TwoPreds(after, v)
  {
    var d, e := TwoPredsGiveTwoEdges(before, v);
    CarrierTarget(before, after, origin, d);
    CarrierTarget(before, after, origin, e);
    TwoEdgesGiveTwoPreds(after, Carrier(after, origin, d), Carrier(after, origin, e));
  }

  ghost predicate NoCriticalEdge(g: seq<Block>)
  {
    forall e :: IsEdge(g, e) ==> !Critical(g, e)
  }

  /** After the pass no critical edge is left. */
  lemma SplitLeavesNoCriticalEdge(before: seq<Block>, after: seq<Block>, origin: seq<Edge>)
    requires IsFullySplit(before, after, origin) && Closed(before)
    ensures Closed(after) && NoCriticalEdge(after)
  {
    OriginTargets(before, after, origin);
    FreshBlocksLeadHome(before, after, origin);
    forall e | IsEdge(after, e)
      ensures Target(after, e) < |after| && !Critical(after, e)
    {
      if e.from < |before| {
        if e in origin {
          FreshBlockHasOnePred(before, after, origin, Target(after, e));
        } else {
          assert Target(after, e) == Target(before, e) == before[e.from].succs[e.index];
          TwoPredsKept(before, after, origin, Target(before, e));
        }
      }
    }
    forall b, i | 0 <= b < |after| && 0 <= i < |after[b].succs|
      ensures after[b].succs[i] < |after|
    {
      assert IsEdge(after, Edge(b, i)) && Target(after, Edge(b, i)) < |after|;
    }
  }

  lemma FreshBlocksLeadHome(before: seq<Block>, after: seq<Block>, origin: seq<Edge>)
    requires IsSplit(before, after, origin) && Closed(before)
    ensures forall e :: IsEdge(after, e) && e.from >= |before| ==>
              Target(after, e) < |before| && |after[e.from].succs| == 1
  {
    forall e | IsEdge(after, e) && e.from >= |before|
      ensures Target(after, e) < |before| && |after[e.from].succs| == 1
    {
      assert IsFresh(before, after, origin, e.from);
      var d := origin[e.from - |before|];
      assert Target(before, d) == before[d.from].succs[d.index];
    }
  }

  lemma OtherEdgesStayHome(before: seq<Block>, after: seq<Block>, origin: seq<Edge>)
    requires IsSplit(before, after, origin) && Closed(before)
    ensures forall e :: IsEdge(before, e) && e !in origin ==> IsEdge(after, e) && Target(after, e) < |before|
  {
    forall e | IsEdge(before, e) && e !in origin
      ensures IsEdge(after, e) && Target(after, e) < |before|
    {
      assert Target(after, e) == Target(before, e) == before[e.from].succs[e.index];
    }
  }

  lemma FreshBlockHasOnePred(before: seq<Block>, after: seq<Block>, origin: seq<Edge>, n: nat)
    requires IsSplit(before, after, origin) && Closed(before) && |before| <= n < |after|
    ensures !TwoPreds(after, n)
  {
    OriginTargets(before, after, origin);
    FreshBlocksLeadHome(before, after, origin);
    OtherEdgesStayHome(before, after, origin);
    forall e | IsEdge(after, e) && Target(after, e) == n
      ensures e == origin[n - |before|]
    {
      assert IsEdge(before, e);
    }
    if TwoPreds(after, n) {
      var d, e := TwoPredsGiveTwoEdges(after, n);
    }
  }

  // ----- whole modules -----

  ghost predicate IsSplitModule(m: Module, m': Module, origins: seq<seq<Edge>>)
  {
    && |m'| == |m| == |origins|
    && forall f :: 0 <= f < |m| ==> IsFullySplit(m[f].blocks, m'[f].blocks, origins[f])
  }

  lemma ClosedFunction(m: Module, f: nat)
    requires WellFormed(m) && f < |m|
    ensures Closed(m[f].blocks)
  {
    assert WellFormedBlocks(m, m[f].blocks);
  }

  lemma SplitModuleWellFormed(m: Module, m': Module, origins: seq<seq<Edge>>)
    requires WellFormed(m) && IsSplitModule(m, m', origins)
    ensures WellFormed(m')
    ensures forall f :: 0 <= f < |m'| ==> NoCriticalEdge(m'[f].blocks)
  {
    forall f | 0 <= f < |m'|
      ensures WellFormedBlocks(m', m'[f].blocks) && NoCriticalEdge(m'[f].blocks)
    {
      ClosedFunction(m, f);
      assert WellFormedBlocks(m, m[f].blocks);
      SplitLeavesNoCriticalEdge(m[f].blocks, m'[f].blocks, origins[f]);
      var g, g' := m[f].blocks, m'[f].blocks;
      forall b | 0 <= b < |g'|
        ensures forall p | 0 <= p < |g'[b].body| :: g'[b].body[p].Call? ==> g'[b].body[p].callee < |m'|
      {
        assert IsFullySplit(g, g', origins[f]);
        assert b >= |g| ==> IsFresh(g, g', origins[f], b);
      }
    }
  }

  /** The critical edges before the i-th of block u have been split. */
  ghost predicate SplitSoFar(before: seq<Block>, origin: seq<Edge>, u: nat, i: nat)
  {
    forall e :: e in origin <==>
                IsEdge(before, e) && Critical(before, e) && (e.from < u || (e.from == u && e.index < i))
  }

  /** The loop is at an edge that is still in place, and sees whether it was critical. */
  lemma NextToSplit(before: seq<Block>, blocks: seq<Block>, origin: seq<Edge>, u: nat, i: nat)
    requires Closed(before) && IsSplit(before, blocks, origin) && SplitSoFar(before, origin, u, i)
    requires IsEdge(before, Edge(u, i))
    ensures var e := Edge(u, i);
            && e !in origin && IsEdge(blocks, e)
            && (Critical(blocks, e) <==> Critical(before, e))
            && SplitSoFar(before, if Critical(before, e) then origin + [e] else origin, u, i + 1)
  {
    var e := Edge(u, i);
    assert e !in origin;
    assert Target(blocks, e) == Target(before, e) == before[u].succs[i] < |before|;
    TwoPredsKept(before, blocks, origin, Target(before, e));
    hide IsSplit, Closed, TwoPreds;
    assert forall d :: d in origin + [e] <==> d in origin || d == e;
  }

  lemma NextBlockToSplit(before: seq<Block>, origin: seq<Edge>, u: nat)
    requires u < |before| && SplitSoFar(before, origin, u, |before[u].succs|)
    ensures SplitSoFar(before, origin, u + 1, 0)
  {
  }

  /** The program under analysis; passes rewrite it in place. */
  class IrModule {
    var functions: seq<Func>

    constructor (functions: seq<Func>)
      ensures this.functions == functions
    {
      this.functions := functions;
    }

    /** Split every critical edge of one function, visiting blocks and successors in order. */
    method SplitAllCriticalEdges(f: nat) returns (ghost origin: seq<Edge>)
      requires f < |functions| && Closed(functions[f].blocks)
      modifies this
      ensures |functions| == |old(functions)|
      ensures forall h :: 0 <= h < |functions| && h != f ==> functions[h] == old(functions[h])
      ensures IsFullySplit(old(functions[f].blocks), functions[f].blocks, origin)
    {
      var before := functions[f].blocks;
      var blocks := before;
      origin := [];
      for u := 0 to |before|
        invariant functions == old(functions)
        invariant IsSplit(before, blocks, origin) && SplitSoFar(before, origin, u, 0)
      {
        hide IsSplit, SplitSoFar, Closed, TwoPreds;
        for i := 0 to |before[u].succs|
          invariant functions == old(functions)
          invariant IsSplit(before, blocks, origin) && SplitSoFar(before, origin, u, i)
        {
          var e := Edge(u, i);
          NextToSplit(before, blocks, origin, u, i);
          if Critical(blocks, e) {
            SplitOneExtends(before, blocks, origin, e);
            blocks := SplitOne(blocks, e);
            origin := origin + [e];
          }
        }
        NextBlockToSplit(before, origin, u);
      }
      functions := functions[f := Func(blocks)];
    }

    /** The path-splitting loop over all functions. */
    method SplitModule() returns (ghost origins: seq<seq<Edge>>)
      requires WellFormed(functions)
      modifies this
      ensures IsSplitModule(old(functions), functions, origins)
    {
      origins := [];
      for f := 0 to |functions|
        invariant |functions| == |old(functions)| && |origins| == f
        invariant forall h :: f <= h < |functions| ==> functions[h] == old(functions[h])
        invariant forall h :: 0 <= h < f ==>
                    IsFullySplit(old(functions[h].blocks), functions[h].blocks, origins[h])
      {
        ClosedFunction(old(functions), f);
        var origin := SplitAllCriticalEdges(f);
        origins := origins + [origin];
      }
    }
  }

  // ----- the split program simulates the original -----

  function EraseFrame(m: Module, m': Module, fr: Frame): Frame
  {
    if fr.fn < |m| && fr.fn < |m'| && |m[fr.fn].blocks| <= fr.block < |m'[fr.fn].blocks| &&
       m'[fr.fn].blocks[fr.block].succs != []
    then Frame(fr.fn, m'[fr.fn].blocks[fr.block].succs[0], 0)
    else fr
  }

  function EraseStack(m: Module, m': Module, stack: seq<Frame>): (r: seq<Frame>)
    ensures |r| == |stack|
  {
    seq(|stack|, i requires 0 <= i < |stack| => EraseFrame(m, m', stack[i]))
  }

  /** Replace every split block on the stack by the block it leads to. */
  function EraseConfig<S>(m: Module, m': Module, c: Config<S>): Config<S>
  {
    if c.Running? then c.(stack := EraseStack(m, m', c.stack)) else c
  }

  /** The running block was inserted by splitting. */
  predicate InSplitBlock<S>(m: Module, c: Config<S>)
  {
    c.Running? && |c.stack| > 0 && Top(c).fn < |m| && Top(c).block >= |m[Top(c).fn].blocks|
  }

  /** How many of the first n steps belong to the original program. */
  ghost function OriginalSteps<S>(m: Module, m': Module, sem: Sem<S>, c: Config<S>, n: nat): nat
    requires WellFormed(m') && Valid(m', c)
  {
    if n == 0 then 0
    else OriginalSteps(m, m', sem, c, n - 1) + (if InSplitBlock(m, Run(m', sem, c, n - 1)) then 0 else 1)
  }

  /** What the original program shows for an event of the split program. */
  function EraseEvent(m: Module, m': Module, e: Event): seq<Event>
  {
    if e.at.fn < |m| && e.via.ByEdge? && e.via.from >= |m[e.at.fn].blocks| then []
    else
      var fr := EraseFrame(m, m', Frame(e.at.fn, e.at.block, 0));
      [Enter(BlockRef(fr.fn, fr.block), e.via)]
  }

  function EraseTrace(m: Module, m': Module, t: seq<Event>): seq<Event>
  {
    if t == [] then [] else EraseTrace(m, m', t[..|t| - 1]) + EraseEvent(m, m', t[|t| - 1])
  }

  lemma EraseFrameValid(m: Module, m': Module, origins: seq<seq<Edge>>, fr: Frame)
    requires WellFormed(m) && IsSplitModule(m, m', origins) && ValidFrame(m', fr)
    ensures ValidFrame(m, EraseFrame(m, m', fr))
    ensures fr.block < |m[fr.fn].blocks| ==> EraseFrame(m, m', fr) == fr
    ensures fr.block >= |m[fr.fn].blocks| ==>
              m'[fr.fn].blocks[fr.block].body == [] && |m'[fr.fn].blocks[fr.block].succs| == 1 &&
              EraseFrame(m, m', fr) == Frame(fr.fn, m'[fr.fn].blocks[fr.block].succs[0], 0) &&
              m'[fr.fn].blocks[fr.block].succs[0] < |m[fr.fn].blocks|
  {
    var g, g', origin := m[fr.fn].blocks, m'[fr.fn].blocks, origins[fr.fn];
    assert IsFullySplit(g, g', origin);
    if fr.block >= |g| {
      assert IsFresh(g, g', origin, fr.block);
      var e := origin[fr.block - |g|];
      ClosedFunction(m, fr.fn);
      assert Target(g, e) == g[e.from].succs[e.index];
    }
  }

  lemma EraseConfigValid<S>(m: Module, m': Module, origins: seq<seq<Edge>>, c: Config<S>)
    requires WellFormed(m) && IsSplitModule(m, m', origins) && Valid(m', c)
    ensures Valid(m, EraseConfig(m, m', c))
  {
    if c.Running? {
      forall i | 0 <= i < |c.stack|
        ensures ValidFrame(m, EraseStack(m, m', c.stack)[i])
      {
        EraseFrameValid(m, m', origins, c.stack[i]);
      }
    }
  }

  /** One step of the split program is one step of the original or none. */
  lemma SplitStep<S>(m: Module, m': Module, origins: seq<seq<Edge>>, sem: Sem<S>, c: Config<S>)
    requires WellFormed(m) && WellFormed(m') && IsSplitModule(m, m', origins) && Valid(m', c)
    requires Valid(m, EraseConfig(m, m', c))
    ensures EraseConfig(m, m', Step(m', sem, c)) ==
            if InSplitBlock(m, c) then EraseConfig(m, m', c) else Step(m, sem, EraseConfig(m, m', c))
    ensures EraseTrace(m, m', StepEvent(m', sem, c)) ==
            if InSplitBlock(m, c) then [] else StepEvent(m, sem, EraseConfig(m, m', c))
  {
    if c.Running? {
      if InSplitBlock(m, c) {
        SplitBlockStep(m, m', origins, sem, c);
      } else if Top(c).pc < |BlockOf(m', Top(c)).body| {
        SplitInstrStep(m, m', origins, sem, c);
      } else {
        SplitTermStep(m, m', origins, sem, c);
      }
    }
  }

  lemma SplitBlockStep<S>(m: Module, m': Module, origins: seq<seq<Edge>>, sem: Sem<S>, c: Config<S>)
    requires WellFormed(m) && WellFormed(m') && IsSplitModule(m, m', origins) && Valid(m', c)
    requires InSplitBlock(m, c)
    ensures EraseConfig(m, m', Step(m', sem, c)) == EraseConfig(m, m', c)
    ensures EraseTrace(m, m', StepEvent(m', sem, c)) == []
  {
    var fr := Top(c);
    EraseFrameValid(m, m', origins, fr);
    StepIsTerm(m', sem, c);
    hide Step, StepEvent, WellFormed, IsSplitModule, Valid;
    var blk := m'[fr.fn].blocks[fr.block];
    var fr' := Frame(fr.fn, blk.succs[0], 0);
    assert Step(m', sem, c) == c.(stack := Replace(c.stack, fr'));
    assert EraseFrame(m, m', fr') == fr' == EraseFrame(m, m', fr);
    assert EraseStack(m, m', Replace(c.stack, fr')) == EraseStack(m, m', c.stack);
    EraseSingle(m, m', Enter(BlockRef(fr.fn, blk.succs[0]), ByEdge(fr.block, 0)));
  }

  lemma EraseSingle(m: Module, m': Module, e: Event)
    ensures EraseTrace(m, m', [e]) == EraseEvent(m, m', e)
    ensures EraseTrace(m, m', []) == []
  {
    assert EraseTrace(m, m', [e]) == EraseTrace(m, m', []) + EraseEvent(m, m', e);
  }

  /** Original blocks keep their code, and their successors up to splitting. */
  lemma OriginalBlockKept(m: Module, m': Module, origins: seq<seq<Edge>>, f: nat, b: nat)
    requires IsSplitModule(m, m', origins) && IsBlock(m, f, b)
    ensures IsBlock(m', f, b)
    ensures m'[f].blocks[b].body == m[f].blocks[b].body && m'[f].blocks[b].term == m[f].blocks[b].term
    ensures |m'[f].blocks[b].succs| == |m[f].blocks[b].succs|
    ensures forall g :: 0 <= g < |m| ==> (m'[g].blocks == [] <==> m[g].blocks == [])
  {
    assert IsFullySplit(m[f].blocks, m'[f].blocks, origins[f]);
    forall g | 0 <= g < |m|
      ensures m'[g].blocks == [] <==> m[g].blocks == []
    {
      assert IsFullySplit(m[g].blocks, m'[g].blocks, origins[g]);
      assert |origins[g]| > 0 ==> origins[g][0] in origins[g];
    }
  }

  lemma SplitInstrStep<S>(m: Module, m': Module, origins: seq<seq<Edge>>, sem: Sem<S>, c: Config<S>)
    requires WellFormed(m) && WellFormed(m') && IsSplitModule(m, m', origins) && Valid(m', c)
    requires Valid(m, EraseConfig(m, m', c))
    requires c.Running? && !InSplitBlock(m, c)
    requires Top(c).pc < |m'[Top(c).fn].blocks[Top(c).block].body|
    ensures EraseConfig(m, m', Step(m', sem, c)) == Step(m, sem, EraseConfig(m, m', c))
    ensures EraseTrace(m, m', StepEvent(m', sem, c)) == StepEvent(m, sem, EraseConfig(m, m', c))
  {
    SplitSameBlock(m, m', origins, c);
    var e := EraseConfig(m, m', c);
    StepIsInstr(m', sem, c);
    StepIsInstr(m, sem, e);
    hide *;
    EraseStepInstr(m, m', sem, c, BlockOf(m', Top(c)).body[Top(c).pc]);
  }

  /** Outside split blocks both programs are about to do the same thing. */
  lemma SplitSameBlock<S>(m: Module, m': Module, origins: seq<seq<Edge>>, c: Config<S>)
    requires WellFormed(m) && IsSplitModule(m, m', origins) && Valid(m', c)
    requires Valid(m, EraseConfig(m, m', c)) && c.Running? && !InSplitBlock(m, c)
    ensures var e, fr := EraseConfig(m, m', c), Top(c);
            && |m| == |m'| && e.Running? && Top(e) == fr
            && IsBlock(m, fr.fn, fr.block)
            && BlockOf(m', fr).body == BlockOf(m, fr).body && BlockOf(m', fr).term == BlockOf(m, fr).term
            && |BlockOf(m', fr).succs| == |BlockOf(m, fr).succs|
            && (fr.pc < |BlockOf(m, fr).body| && BlockOf(m, fr).body[fr.pc].Call? ==>
                  var g := BlockOf(m, fr).body[fr.pc].callee;
                  g < |m| && (m'[g].blocks == [] <==> m[g].blocks == []))
  {
    EraseFrameValid(m, m', origins, Top(c));
    OriginalBlockKept(m, m', origins, Top(c).fn, Top(c).block);
    assert WellFormedBlocks(m, m[Top(c).fn].blocks);
  }

  /** The step of one instruction commutes with erasure. */
  lemma EraseStepInstr<S>(m: Module, m': Module, sem: Sem<S>, c: Config<S>, i: Instr)
    requires c.Running? && |c.stack| > 0 && Top(c).fn < |m| && Top(c).block < |m[Top(c).fn].blocks|
    requires |m| == |m'| && (i.Call? ==> i.callee < |m|)
    requires i.Call? ==> (m'[i.callee].blocks == [] <==> m[i.callee].blocks == [])
    requires Top(EraseConfig(m, m', c)) == Top(c)
    ensures EraseConfig(m, m', StepInstr(m', sem, c, i)) == StepInstr(m, sem, EraseConfig(m, m', c), i)
    ensures EraseTrace(m, m', InstrEvent(m', i)) == InstrEvent(m, i)
  {
    var next := Replace(c.stack, Top(c).(pc := Top(c).pc + 1));
    EraseTop(m, m', c.stack, Top(c).(pc := Top(c).pc + 1));
    if i.Call? && m[i.callee].blocks != [] {
      EraseEntry(m, m', i.callee);
      ErasePush(m, m', next, Frame(i.callee, 0, 0));
      EraseSingle(m, m', Enter(BlockRef(i.callee, 0), ByCall));
      hide EraseStack, EraseFrame, EraseTrace, EraseEvent, ExecProbe;
    } else {
      EraseTraceNothing(m, m');
      hide EraseStack, EraseFrame, EraseTrace, EraseEvent, ExecProbe;
    }
  }

  lemma ErasePush(m: Module, m': Module, stack: seq<Frame>, fr: Frame)
    ensures EraseStack(m, m', stack + [fr]) == EraseStack(m, m', stack) + [EraseFrame(m, m', fr)]
  {
  }

  lemma EraseTop(m: Module, m': Module, stack: seq<Frame>, fr: Frame)
    requires |stack| > 0
    ensures EraseStack(m, m', Replace(stack, fr)) == Replace(EraseStack(m, m', stack), EraseFrame(m, m', fr))
    ensures fr.fn < |m| && fr.block < |m[fr.fn].blocks| ==> EraseFrame(m, m', fr) == fr
  {
  }

  lemma EraseEntry(m: Module, m': Module, g: nat)
    requires g < |m| && m[g].blocks != []
    ensures EraseFrame(m, m', Frame(g, 0, 0)) == Frame(g, 0, 0)
  {
  }

  lemma SplitTermStep<S>(m: Module, m': Module, origins: seq<seq<Edge>>, sem: Sem<S>, c: Config<S>)
    requires WellFormed(m) && WellFormed(m') && IsSplitModule(m, m', origins) && Valid(m', c)
    requires Valid(m, EraseConfig(m, m', c))
    requires c.Running? && !InSplitBlock(m, c)
    requires Top(c).pc == |m'[Top(c).fn].blocks[Top(c).block].body|
    ensures EraseConfig(m, m', Step(m', sem, c)) == Step(m, sem, EraseConfig(m, m', c))
    ensures EraseTrace(m, m', StepEvent(m', sem, c)) == StepEvent(m, sem, EraseConfig(m, m', c))
  {
    var fr := Top(c);
    var e := EraseConfig(m, m', c);
    SplitSameBlock(m, m', origins, c);
    StepIsTerm(m', sem, c);
    StepIsTerm(m, sem, e);
    var blk, blk' := m[fr.fn].blocks[fr.block], m'[fr.fn].blocks[fr.block];
    if blk'.succs == [] {
      hide Step, StepEvent, WellFormed, IsSplitModule, Valid, EraseFrame;
      assert EraseStack(m, m', c.stack[..|c.stack| - 1]) == e.stack[..|c.stack| - 1];
    } else {
      var i := Pick(sem.branch(blk.term, c.data), |blk.succs|);
      EdgeLeadsHome(m, m', origins, fr.fn, Edge(fr.block, i));
      hide Step, StepEvent, WellFormed, IsSplitModule, Valid;
      var to' := blk'.succs[i];
      EraseTop(m, m', c.stack, Frame(fr.fn, to', 0));
      EraseSingle(m, m', Enter(BlockRef(fr.fn, to'), ByEdge(fr.block, i)));
    }
  }

  lemma EdgeLeadsHome(m: Module, m': Module, origins: seq<seq<Edge>>, f: nat, e: Edge)
    requires WellFormed(m) && IsSplitModule(m, m', origins) && f < |m| && IsEdge(m[f].blocks, e)
    ensures IsEdge(m'[f].blocks, e)
    ensures EraseFrame(m, m', Frame(f, Target(m'[f].blocks, e), 0)) == Frame(f, Target(m[f].blocks, e), 0)
  {
    var g, g', origin := m[f].blocks, m'[f].blocks, origins[f];
    assert IsFullySplit(g, g', origin);
    ClosedFunction(m, f);
    assert g[e.from].succs[e.index] < |g|;
    OriginTargets(g, g', origin);
  }

  lemma {:induction false} EraseTraceAppend(m: Module, m': Module, s: seq<Event>, t: seq<Event>)
    ensures EraseTrace(m, m', s + t) == EraseTrace(m, m', s) + EraseTrace(m, m', t)
  {
    if t == [] {
      assert s + t == s;
    } else {
      var u := t[..|t| - 1];
      assert (s + t)[..|s + t| - 1] == s + u;
      EraseTraceAppend(m, m', s, u);
    }
  }

  lemma OriginalStepsUnroll<S>(m: Module, m': Module, sem: Sem<S>, c: Config<S>, n: nat)
    requires WellFormed(m') && Valid(m', c)
    ensures OriginalSteps(m, m', sem, c, 0) == 0
    ensures OriginalSteps(m, m', sem, c, n + 1) ==
            OriginalSteps(m, m', sem, c, n) + (if InSplitBlock(m, Run(m', sem, c, n)) then 0 else 1)
  {
  }

  lemma EraseTraceNothing(m: Module, m': Module)
    ensures EraseTrace(m, m', []) == []
  {
  }

  /** Erasing the inserted blocks from any run of the split program gives a run of the
      original program with the same data, memory and trace. */
  lemma {:induction false} SplitPreservesRuns<S>(
    m: Module, m': Module, origins: seq<seq<Edge>>, sem: Sem<S>, c: Config<S>, n: nat)
    requires WellFormed(m) && WellFormed(m') && IsSplitModule(m, m', origins)
    requires Valid(m', c) && Valid(m, EraseConfig(m, m', c))
    ensures EraseConfig(m, m', Run(m', sem, c, n)) ==
            Run(m, sem, EraseConfig(m, m', c), OriginalSteps(m, m', sem, c, n))
    ensures EraseTrace(m, m', Trace(m', sem, c, n)) ==
            Trace(m, sem, EraseConfig(m, m', c), OriginalSteps(m, m', sem, c, n))
  {
    hide *;
    RunZero(m', sem, c);
    RunZero(m, sem, EraseConfig(m, m', c));
    OriginalStepsUnroll(m, m', sem, c, if n == 0 then 0 else n - 1);
    EraseTraceNothing(m, m');
    if n > 0 {
      SplitPreservesRuns(m, m', origins, sem, c, n - 1);
      var d := Run(m', sem, c, n - 1);
      var e, j := EraseConfig(m, m', c), OriginalSteps(m, m', sem, c, n - 1);
      assert EraseConfig(m, m', d) == Run(m, sem, e, j);
      EraseConfigValid(m, m', origins, d);
      SplitStep(m, m', origins, sem, d);
      EraseTraceAppend(m, m', Trace(m', sem, c, n - 1), StepEvent(m', sem, d));
      assert EraseTrace(m, m', Trace(m', sem, c, n - 1)) + [] == EraseTrace(m, m', Trace(m', sem, c, n - 1));
      NextStep(m', sem, c, n - 1);
      NextStep(m, sem, e, j);
    }
  }

  lemma SplitBlockIsLeft<S>(m: Module, m': Module, origins: seq<seq<Edge>>, sem: Sem<S>, c: Config<S>)
    requires WellFormed(m) && WellFormed(m') && IsSplitModule(m, m', origins) && Valid(m', c)
    requires InSplitBlock(m, c)
    ensures !InSplitBlock(m, Step(m', sem, c))
  {
    EraseFrameValid(m, m', origins, Top(c));
  }

  /** The split program never falls behind for good: every original step is matched. */
  lemma {:induction false} SplitCatchesUp<S>(
    m: Module, m': Module, origins: seq<seq<Edge>>, sem: Sem<S>, c: Config<S>, j: nat) returns (n: nat)
    requires WellFormed(m) && WellFormed(m') && IsSplitModule(m, m', origins) && Valid(m', c)
    ensures OriginalSteps(m, m', sem, c, n) == j && n <= 2 * j
  {
    hide *;
    if j == 0 {
      n := 0;
      OriginalStepsUnroll(m, m', sem, c, 0);
    } else {
      n := SplitCatchesUp(m, m', origins, sem, c, j - 1);
      if InSplitBlock(m, Run(m', sem, c, n)) {
        SplitBlockIsLeft(m, m', origins, sem, Run(m', sem, c, n));
        OriginalStepsUnroll(m, m', sem, c, n);
        NextStep(m', sem, c, n);
        n := n + 1;
      }
      OriginalStepsUnroll(m, m', sem, c, n);
      n := n + 1;
    }
  }
}
