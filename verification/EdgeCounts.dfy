/** Counts are enough: in a split program whose blocks of in-degree below two are numbered, how often
    each numbered block was entered determines how often every edge was taken. This is what a bitmap
    of NODE counters records. */
module EdgeCounts {
  import opened Ir
  import opened SplitEdges
  import opened BlockIds
  import opened PathRecovery

  /** The edges of function f that a run took, with multiplicity. */
  function Taken(t: seq<Event>, f: nat): multiset<Edge>
  {
    if t == [] then multiset{}
    else
      var e := t[|t| - 1];
      Taken(t[..|t| - 1], f) +
      (if e.at.fn == f && e.via.ByEdge? then multiset{Edge(e.via.from, e.via.index)} else multiset{})
  }

  /** Those into block b. */
  function TakenInto(t: seq<Event>, f: nat, b: nat): multiset<Edge>
  {
    if t == [] then multiset{}
    else
      var e := t[|t| - 1];
      TakenInto(t[..|t| - 1], f, b) +
      (if e.at == BlockRef(f, b) && e.via.ByEdge? then multiset{Edge(e.via.from, e.via.index)} else multiset{})
  }

  /** How often block r was entered. */
  function Entries(t: seq<Event>, r: BlockRef): nat
  {
    if t == [] then 0 else Entries(t[..|t| - 1], r) + (if t[|t| - 1].at == r then 1 else 0)
  }

  // ----- events are about the program -----

  /** The event names an edge of the program, or the entry block of a called function. */
  ghost predicate TrueEvent(m: Module, e: Event)
  {
    && e.at.fn < |m|
    && (e.via.ByEdge? ==>
          var g, d := m[e.at.fn].blocks, Edge(e.via.from, e.via.index);
          IsEdge(g, d) && Target(g, d) == e.at.block)
    && (!e.via.ByEdge? ==> e.at.block == 0)
  }

  ghost predicate TrueEvents(m: Module, t: seq<Event>)
  {
    forall i :: 0 <= i < |t| ==> TrueEvent(m, t[i])
  }

  lemma StepEventIsTrue<S>(m: Module, sem: Sem<S>, c: Config<S>)
    requires WellFormed(m) && Valid(m, c)
    ensures TrueEvents(m, StepEvent(m, sem, c))
  {
    if c.Running? {
      assert WellFormedBlocks(m, m[Top(c).fn].blocks);
    }
  }

  lemma {:induction false} TraceIsTrue<S>(m: Module, sem: Sem<S>, c: Config<S>, n: nat)
    requires WellFormed(m) && Valid(m, c)
    ensures TrueEvents(m, Trace(m, sem, c, n))
  {
    hide Step, StepEvent, TrueEvent, WellFormed, Valid;
    if n > 0 {
      TraceIsTrue(m, sem, c, n - 1);
      StepEventIsTrue(m, sem, Run(m, sem, c, n - 1));
    }
  }

  lemma {:induction false} IntoIsTaken(m: Module, t: seq<Event>, f: nat, b: nat, d: Edge)
    requires f < |m| && TrueEvents(m, t)
    ensures TakenInto(t, f, b)[d] ==
            if IsEdge(m[f].blocks, d) && Target(m[f].blocks, d) == b then Taken(t, f)[d] else 0
    ensures !IsEdge(m[f].blocks, d) ==> Taken(t, f)[d] == 0
  {
    if t != [] {
      IntoIsTaken(m, t[..|t| - 1], f, b, d);
      assert TrueEvent(m, t[|t| - 1]);
    }
  }

  /** A block that is no entry block is entered by edges only. */
  lemma {:induction false} EntriesAreTaken(m: Module, t: seq<Event>, f: nat, b: nat)
    requires f < |m| && TrueEvents(m, t) && b != 0
    ensures |TakenInto(t, f, b)| == Entries(t, BlockRef(f, b))
  {
    if t != [] {
      EntriesAreTaken(m, t[..|t| - 1], f, b);
      assert TrueEvent(m, t[|t| - 1]);
    }
  }

  // ----- what enters a block leaves it -----

  function StackOf<S>(c: Config<S>): seq<Frame>
  {
    if c.Running? then c.stack else []
  }

  /** Activations that are in block r. */
  function Inside(stack: seq<Frame>, r: BlockRef): nat
  {
    if stack == [] then 0
    else
      var fr := stack[|stack| - 1];
      Inside(stack[..|stack| - 1], r) + (if BlockRef(fr.fn, fr.block) == r then 1 else 0)
  }

  lemma InsideTop(stack: seq<Frame>, fr: Frame, r: BlockRef)
    requires |stack| > 0
    ensures var top := stack[|stack| - 1];
            && Inside(stack, r) ==
               Inside(stack[..|stack| - 1], r) + (if BlockRef(top.fn, top.block) == r then 1 else 0)
            && Inside(Replace(stack, fr), r) ==
               Inside(stack[..|stack| - 1], r) + (if BlockRef(fr.fn, fr.block) == r then 1 else 0)
  {
    assert Replace(stack, fr)[..|stack| - 1] == stack[..|stack| - 1];
  }

  lemma InsidePush(stack: seq<Frame>, fr: Frame, r: BlockRef)
    ensures Inside(stack + [fr], r) == Inside(stack, r) + (if BlockRef(fr.fn, fr.block) == r then 1 else 0)
  {
    assert (stack + [fr])[..|stack|] == stack;
  }

  /** Entries minus departures by the only successor. */
  ghost predicate Flow<S>(m: Module, c: Config<S>, t: seq<Event>, r: BlockRef, start: nat)
  {
    Entries(t, r) + start == Taken(t, r.fn)[Edge(r.block, 0)] + Inside(StackOf(c), r)
  }

  lemma CountsOfOne(t: seq<Event>, e: Event, r: BlockRef)
    ensures Entries(t + [e], r) == Entries(t, r) + (if e.at == r then 1 else 0)
    ensures Taken(t + [e], r.fn)[Edge(r.block, 0)] == Taken(t, r.fn)[Edge(r.block, 0)] +
            (if e.at.fn == r.fn && e.via == ByEdge(r.block, 0) then 1 else 0)
  {
    assert (t + [e])[..|t|] == t;
  }

  lemma CallKeepsFlow<S>(m: Module, sem: Sem<S>, c: Config<S>, i: Instr, t: seq<Event>, r: BlockRef, start: nat)
    requires c.Running? && |c.stack| > 0 && i.Call? && i.callee < |m| && m[i.callee].blocks != []
    requires Flow(m, c, t, r, start)
    ensures Flow(m, StepInstr(m, sem, c, i), t + InstrEvent(m, i), r, start)
  {
    var fr := Top(c);
    var next := Replace(c.stack, fr.(pc := fr.pc + 1));
    assert StepInstr(m, sem, c, i) == Running(next + [Frame(i.callee, 0, 0)], c.data, c.mem);
    assert InstrEvent(m, i) == [Enter(BlockRef(i.callee, 0), ByCall)];
    hide StepInstr, InstrEvent, Entries, Taken, Inside;
    InsideTop(c.stack, fr.(pc := fr.pc + 1), r);
    InsidePush(next, Frame(i.callee, 0, 0), r);
    CountsOfOne(t, Enter(BlockRef(i.callee, 0), ByCall), r);
  }

  lemma InstrKeepsFlow<S>(m: Module, sem: Sem<S>, c: Config<S>, i: Instr, t: seq<Event>, r: BlockRef, start: nat)
    requires c.Running? && |c.stack| > 0 && !i.Emit? && (i.Call? ==> i.callee < |m|)
    requires Flow(m, c, t, r, start)
    ensures Flow(m, StepInstr(m, sem, c, i), t + InstrEvent(m, i), r, start)
  {
    var fr := Top(c);
    if i.Call? && m[i.callee].blocks != [] {
      CallKeepsFlow(m, sem, c, i, t, r, start);
    } else {
      assert StepInstr(m, sem, c, i).Running?;
      assert StepInstr(m, sem, c, i).stack == Replace(c.stack, fr.(pc := fr.pc + 1));
      assert InstrEvent(m, i) == [] && t + [] == t;
      hide StepInstr, InstrEvent, Entries, Taken, Inside;
      InsideTop(c.stack, fr.(pc := fr.pc + 1), r);
    }
  }

  lemma ReturnKeepsFlow<S>(m: Module, sem: Sem<S>, c: Config<S>, blk: Block, t: seq<Event>, r: BlockRef, start: nat)
    requires c.Running? && |c.stack| > 0 && blk.succs == [] && Flow(m, c, t, r, start)
    requires BlockRef(Top(c).fn, Top(c).block) != r
    ensures Flow(m, StepTerm(sem, c, blk), t + TermEvent(sem, c, blk), r, start)
  {
    assert StackOf(StepTerm(sem, c, blk)) == c.stack[..|c.stack| - 1];
    assert TermEvent(sem, c, blk) == [] && t + [] == t;
    hide StepTerm, TermEvent, Entries, Taken, Inside;
    InsideTop(c.stack, Top(c), r);
  }

  lemma BranchKeepsFlow<S>(m: Module, sem: Sem<S>, c: Config<S>, blk: Block, t: seq<Event>, r: BlockRef, start: nat)
    requires c.Running? && |c.stack| > 0 && blk.succs != [] && Flow(m, c, t, r, start)
    requires BlockRef(Top(c).fn, Top(c).block) == r ==> |blk.succs| == 1
    ensures Flow(m, StepTerm(sem, c, blk), t + TermEvent(sem, c, blk), r, start)
  {
    var fr, k := Top(c), Pick(sem.branch(blk.term, c.data), |blk.succs|);
    var fr', e := Frame(fr.fn, blk.succs[k], 0), Enter(BlockRef(fr.fn, blk.succs[k]), ByEdge(fr.block, k));
    assert StackOf(StepTerm(sem, c, blk)) == Replace(c.stack, fr') && TermEvent(sem, c, blk) == [e];
    hide StepTerm, TermEvent, Entries, Taken, Inside;
    InsideTop(c.stack, fr', r);
    CountsOfOne(t, e, r);
  }

  lemma TermKeepsFlow<S>(m: Module, sem: Sem<S>, c: Config<S>, t: seq<Event>, r: BlockRef, start: nat)
    requires Valid(m, c) && c.Running? && IsBlock(m, r.fn, r.block) && |m[r.fn].blocks[r.block].succs| == 1
    requires Flow(m, c, t, r, start)
    ensures var blk := BlockOf(m, Top(c));
            Flow(m, StepTerm(sem, c, blk), t + TermEvent(sem, c, blk), r, start)
  {
    var blk := BlockOf(m, Top(c));
    assert BlockRef(Top(c).fn, Top(c).block) == r ==> |blk.succs| == 1;
    hide *;
    if blk.succs == [] {
      ReturnKeepsFlow(m, sem, c, blk, t, r, start);
    } else {
      BranchKeepsFlow(m, sem, c, blk, t, r, start);
    }
  }

  /** In every run: what entered a block of one successor has left it by that edge or is still in it. */
  lemma {:induction false} FlowHolds<S>(m: Module, sem: Sem<S>, c: Config<S>, n: nat, r: BlockRef)
    requires WellFormed(m) && Plain(m) && Valid(m, c)
    requires IsBlock(m, r.fn, r.block) && |m[r.fn].blocks[r.block].succs| == 1
    ensures Flow(m, Run(m, sem, c, n), Trace(m, sem, c, n), r, Inside(StackOf(c), r))
  {
    hide *;
    if n == 0 {
      RunZero(m, sem, c);
      FlowStarts(m, c, r);
    } else {
      FlowHolds(m, sem, c, n - 1, r);
      var d, t := Run(m, sem, c, n - 1), Trace(m, sem, c, n - 1);
      NextStep(m, sem, c, n - 1);
      StepKeepsFlow(m, sem, d, t, r, Inside(StackOf(c), r));
    }
  }

  lemma FlowStarts<S>(m: Module, c: Config<S>, r: BlockRef)
    ensures Flow(m, c, [], r, Inside(StackOf(c), r))
  {
  }

  lemma StepKeepsFlow<S>(m: Module, sem: Sem<S>, c: Config<S>, t: seq<Event>, r: BlockRef, start: nat)
    requires WellFormed(m) && Plain(m) && Valid(m, c) && Flow(m, c, t, r, start)
    requires IsBlock(m, r.fn, r.block) && |m[r.fn].blocks[r.block].succs| == 1
    ensures Flow(m, Step(m, sem, c), t + StepEvent(m, sem, c), r, start)
  {
    if !c.Running? {
      assert StepEvent(m, sem, c) == [] && t + [] == t;
    } else {
      assert ValidFrame(m, Top(c));
      hide Flow, Step, StepEvent, WellFormed, Valid;
      if Top(c).pc < |BlockOf(m, Top(c)).body| {
        PlainInstr(m, Top(c));
        StepIsInstr(m, sem, c);
        InstrKeepsFlow(m, sem, c, BlockOf(m, Top(c)).body[Top(c).pc], t, r, start);
      } else {
        StepIsTerm(m, sem, c);
        TermKeepsFlow(m, sem, c, t, r, start);
      }
    }
  }

  // ----- blocks from which nothing returns -----

  /** Following single successors from b, at most k - 1 of them, reaches a block that returns or branches. */
  predicate Leaves(g: seq<Block>, b: nat, k: nat)
    decreases k
  {
    k > 0 && (b >= |g| || |g[b].succs| != 1 || Leaves(g, g[b].succs[0], k - 1))
  }

  ghost predicate Trapped(g: seq<Block>, b: nat)
  {
    forall k: nat :: !Leaves(g, b, k)
  }

  lemma TrapIsClosed(g: seq<Block>, b: nat)
    requires Trapped(g, b)
    ensures b < |g| && |g[b].succs| == 1 && Trapped(g, g[b].succs[0])
  {
    assert !Leaves(g, b, 1);
    forall k: nat
      ensures !Leaves(g, g[b].succs[0], k)
    {
      assert !Leaves(g, b, k + 1);
    }
  }

  ghost predicate TrappedFrame(m: Module, fr: Frame)
  {
    fr.fn < |m| && Trapped(m[fr.fn].blocks, fr.block)
  }

  ghost predicate HasTrapped<S>(m: Module, c: Config<S>)
  {
    c.Running? && exists i :: 0 <= i < |c.stack| && TrappedFrame(m, c.stack[i])
  }

  lemma InstrKeepsTrap<S>(m: Module, sem: Sem<S>, c: Config<S>, i: Instr)
    requires c.Running? && |c.stack| > 0 && !i.Emit? && (i.Call? ==> i.callee < |m|) && HasTrapped(m, c)
    ensures HasTrapped(m, StepInstr(m, sem, c, i))
  {
    hide ExecProbe, Trapped;
    var k :| 0 <= k < |c.stack| && TrappedFrame(m, c.stack[k]);
    assert TrappedFrame(m, StepInstr(m, sem, c, i).stack[k]);
  }

  lemma TermKeepsTrap<S>(m: Module, sem: Sem<S>, c: Config<S>)
    requires Valid(m, c) && c.Running? && HasTrapped(m, c)
    ensures HasTrapped(m, StepTerm(sem, c, BlockOf(m, Top(c))))
  {
    var k :| 0 <= k < |c.stack| && TrappedFrame(m, c.stack[k]);
    TrapIsClosed(m[c.stack[k].fn].blocks, c.stack[k].block);
    hide Trapped;
    assert TrappedFrame(m, StepTerm(sem, c, BlockOf(m, Top(c))).stack[k]);
  }

  lemma StepKeepsTrap<S>(m: Module, sem: Sem<S>, c: Config<S>)
    requires WellFormed(m) && Plain(m) && Valid(m, c) && HasTrapped(m, c)
    ensures HasTrapped(m, Step(m, sem, c))
  {
    assert c.Running? && ValidFrame(m, Top(c));
    hide HasTrapped, Step, WellFormed, Valid;
    if Top(c).pc < |BlockOf(m, Top(c)).body| {
      PlainInstr(m, Top(c));
      StepIsInstr(m, sem, c);
      InstrKeepsTrap(m, sem, c, BlockOf(m, Top(c)).body[Top(c).pc]);
    } else {
      StepIsTerm(m, sem, c);
      TermKeepsTrap(m, sem, c);
    }
  }

  /** The entered block is on top of the stack. */
  lemma EnteredIsTop<S>(m: Module, sem: Sem<S>, c: Config<S>, e: Event)
    requires WellFormed(m) && Plain(m) && Valid(m, c) && StepEvent(m, sem, c) == [e]
    ensures var c' := Step(m, sem, c);
            c'.Running? && |c'.stack| > 0 && Top(c') == Frame(e.at.fn, e.at.block, 0)
  {
    assert c.Running? && ValidFrame(m, Top(c));
    hide WellFormed, Valid;
    if Top(c).pc < |BlockOf(m, Top(c)).body| {
      StepIsInstr(m, sem, c);
    } else {
      StepIsTerm(m, sem, c);
    }
    hide Step, StepEvent, ExecProbe;
  }

  lemma EnteringTraps<S>(m: Module, sem: Sem<S>, c: Config<S>, e: Event)
    requires WellFormed(m) && Plain(m) && Valid(m, c) && StepEvent(m, sem, c) == [e]
    requires e.at.fn < |m| && Trapped(m[e.at.fn].blocks, e.at.block)
    ensures HasTrapped(m, Step(m, sem, c))
  {
    EnteredIsTop(m, sem, c, e);
    var c' := Step(m, sem, c);
    hide Step, StepEvent, Trapped, WellFormed, Plain, Valid;
    assert TrappedFrame(m, c'.stack[|c'.stack| - 1]);
  }

  /** A run that has entered a trap, or started in one, is in one. */
  lemma {:induction false} TrapHolds<S>(m: Module, sem: Sem<S>, c: Config<S>, n: nat, f: nat, b: nat)
    requires WellFormed(m) && Plain(m) && Valid(m, c) && f < |m| && Trapped(m[f].blocks, b)
    ensures Entries(Trace(m, sem, c, n), BlockRef(f, b)) > 0 || HasTrapped(m, c) ==> HasTrapped(m, Run(m, sem, c, n))
  {
    hide *;
    RunZero(m, sem, c);
    if n == 0 {
      NoEntries(BlockRef(f, b));
    } else {
      TrapHolds(m, sem, c, n - 1, f, b);
      var d := Run(m, sem, c, n - 1);
      NextStep(m, sem, c, n - 1);
      EventAtMostOne(m, sem, d);
      if HasTrapped(m, d) {
        StepKeepsTrap(m, sem, d);
      } else if StepEvent(m, sem, d) != [] {
        var e := StepEvent(m, sem, d)[0];
        assert StepEvent(m, sem, d) == [e];
        CountsOfOne(Trace(m, sem, c, n - 1), e, BlockRef(f, b));
        assert Trace(m, sem, c, n) == Trace(m, sem, c, n - 1) + [e];
        if e.at == BlockRef(f, b) {
          EnteringTraps(m, sem, d, e);
        }
      } else {
        assert Trace(m, sem, c, n - 1) + [] == Trace(m, sem, c, n - 1);
      }
    }
  }

  lemma NoEntries(r: BlockRef)
    ensures Entries([], r) == 0
  {
  }

  /** Beyond some number of steps, a block that is not a trap has been left. */
  lemma {:induction false} LeavesMonotone(g: seq<Block>, b: nat, j: nat, k: nat)
    requires j <= k && Leaves(g, b, j)
    ensures Leaves(g, b, k)
    decreases j
  {
    if b < |g| && |g[b].succs| == 1 {
      LeavesMonotone(g, g[b].succs[0], j - 1, k - 1);
    }
  }

  lemma {:induction false} LeaveBound(g: seq<Block>, n: nat) returns (bound: nat)
    requires n <= |g|
    ensures forall b :: 0 <= b < n ==> Leaves(g, b, bound) || Trapped(g, b)
  {
    bound := 0;
    if n > 0 {
      bound := LeaveBound(g, n - 1);
      if !Trapped(g, n - 1) {
        var k: nat :| Leaves(g, n - 1, k);
        var max := if k < bound then bound else k;
        LeavesMonotone(g, n - 1, k, max);
        forall b | 0 <= b < n - 1 && Leaves(g, b, bound)
          ensures Leaves(g, b, max)
        {
          LeavesMonotone(g, b, bound, max);
        }
        bound := max;
      }
    }
  }

  // ----- counts of numbered blocks determine all counts -----

  /** No edge leads to an entry block. */
  ghost predicate EntriesHaveNoPreds(m: Module)
  {
    forall f, d :: 0 <= f < |m| && IsEdge(m[f].blocks, d) ==> Target(m[f].blocks, d) != 0
  }

  /** What completed runs of the program have in common: true events, conservation of flow at blocks
      of one successor, and no visit to a trap. */
  ghost predicate Completed(m: Module, t: seq<Event>, main: nat)
  {
    && TrueEvents(m, t)
    && (forall f: nat, b: nat :: IsBlock(m, f, b) && |m[f].blocks[b].succs| == 1 ==>
          Entries(t, BlockRef(f, b)) + (if f == main && b == 0 then 1 else 0) == Taken(t, f)[Edge(b, 0)])
    && (forall f: nat, b: nat :: f < |m| && Trapped(m[f].blocks, b) ==> Entries(t, BlockRef(f, b)) == 0)
  }

  lemma HaltedIsCompleted<S>(m: Module, sem: Sem<S>, main: nat, data: S, mem: Mem, n: nat)
    requires WellFormed(m) && Plain(m) && Valid(m, Start(main, data, mem))
    requires Run(m, sem, Start(main, data, mem), n).Halted?
    ensures Completed(m, Trace(m, sem, Start(main, data, mem), n), main)
  {
    var c := Start(main, data, mem);
    var t := Trace(m, sem, c, n);
    TraceIsTrue(m, sem, c, n);
    hide Step, StepEvent, WellFormed, Plain, Valid, Run, Trace, TrueEvents, Taken, Entries, Trapped;
    forall f: nat, b: nat | IsBlock(m, f, b) && |m[f].blocks[b].succs| == 1
      ensures Entries(t, BlockRef(f, b)) + (if f == main && b == 0 then 1 else 0) == Taken(t, f)[Edge(b, 0)]
    {
      FlowHolds(m, sem, c, n, BlockRef(f, b));
      InsidePush([], Frame(main, 0, 0), BlockRef(f, b));
      assert [] + [Frame(main, 0, 0)] == [Frame(main, 0, 0)];
    }
    forall f: nat, b: nat | f < |m| && Trapped(m[f].blocks, b)
      ensures Entries(t, BlockRef(f, b)) == 0
    {
      TrapHolds(m, sem, c, n, f, b);
    }
  }

  /** Both runs entered the block equally often. */
  predicate SameEntries(t: seq<Event>, t': seq<Event>, f: nat, b: nat)
  {
    Entries(t, BlockRef(f, b)) == Entries(t', BlockRef(f, b))
  }

  ghost predicate SameRecordedCounts(ids: map<BlockRef, nat>, t: seq<Event>, t': seq<Event>)
  {
    forall r :: r in ids ==> SameEntries(t, t', r.fn, r.block)
  }

  /** Equal entries into a block of one successor are equal uses of its edge. */
  lemma SameOnlyEdge(m: Module, main: nat, t: seq<Event>, t': seq<Event>, f: nat, d: Edge)
    requires Completed(m, t, main) && Completed(m, t', main) && f < |m| && IsEdge(m[f].blocks, d)
    requires |m[f].blocks[d.from].succs| == 1 && SameEntries(t, t', f, d.from)
    ensures Taken(t, f)[d] == Taken(t', f)[d]
  {
    assert d == Edge(d.from, 0) && IsBlock(m, f, d.from);
    hide Taken, Entries, Trapped, TrueEvents;
  }

  /** An edge into a joining block comes from a block of one successor, which is left later. */
  lemma EdgeIntoJoin(m: Module, f: nat, b: nat, k: nat, d: Edge)
    requires NoCriticalEdges(m) && f < |m| && TwoPreds(m[f].blocks, b) && !Leaves(m[f].blocks, b, k)
    requires IsEdge(m[f].blocks, d) && Target(m[f].blocks, d) == b
    ensures |m[f].blocks[d.from].succs| == 1 && !Leaves(m[f].blocks, d.from, k + 1)
  {
    assert NoCriticalEdge(m[f].blocks);
    assert !Critical(m[f].blocks, d);
  }

  /** A joining block: all its edges come from blocks of one successor. */
  lemma SameAtJoin(m: Module, main: nat, t: seq<Event>, t': seq<Event>, f: nat, b: nat, k: nat)
    requires NoCriticalEdges(m) && EntriesHaveNoPreds(m)
    requires Completed(m, t, main) && Completed(m, t', main) && f < |m| && TwoPreds(m[f].blocks, b)
    requires !Leaves(m[f].blocks, b, k)
    requires forall u :: 0 <= u < |m[f].blocks| && !Leaves(m[f].blocks, u, k + 1) ==> SameEntries(t, t', f, u)
    ensures SameEntries(t, t', f, b)
  {
    var g := m[f].blocks;
    assert b != 0 && TrueEvents(m, t) && TrueEvents(m, t') by {
      var x, y := TwoPredsGiveTwoEdges(g, b);
      hide TwoPreds;
    }
    hide Completed, Leaves, TwoPreds, NoCriticalEdges, EntriesHaveNoPreds, TrueEvents, TakenInto, Taken;
    forall d
      ensures TakenInto(t, f, b)[d] == TakenInto(t', f, b)[d]
    {
      IntoIsTaken(m, t, f, b, d);
      IntoIsTaken(m, t', f, b, d);
      if IsEdge(g, d) && Target(g, d) == b {
        EdgeIntoJoin(m, f, b, k, d);
        SameOnlyEdge(m, main, t, t', f, d);
      }
    }
    assert TakenInto(t, f, b) == TakenInto(t', f, b);
    EntriesAreTaken(m, t, f, b);
    EntriesAreTaken(m, t', f, b);
  }

  /** Going backwards along forced paths: blocks that take at least k steps to be left. */
  lemma {:induction false} SameAlongPaths(
    m: Module, ids: map<BlockRef, nat>, main: nat, t: seq<Event>, t': seq<Event>, f: nat, k: nat, bound: nat)
    requires NoCriticalEdges(m) && EntriesHaveNoPreds(m) && Covers(m, ids)
    requires Completed(m, t, main) && Completed(m, t', main) && SameRecordedCounts(ids, t, t')
    requires f < |m| && k <= bound
    requires forall b :: 0 <= b < |m[f].blocks| ==> Leaves(m[f].blocks, b, bound) || Trapped(m[f].blocks, b)
    ensures forall b :: 0 <= b < |m[f].blocks| && !Leaves(m[f].blocks, b, k) ==> SameEntries(t, t', f, b)
    decreases bound - k
  {
    var g := m[f].blocks;
    hide NoCriticalEdges, EntriesHaveNoPreds, Leaves, TwoPreds;
    if k < bound {
      SameAlongPaths(m, ids, main, t, t', f, k + 1, bound);
    }
    forall b | 0 <= b < |g| && !Leaves(g, b, k)
      ensures SameEntries(t, t', f, b)
    {
      if k == bound {
        assert Trapped(g, b);
      } else if BlockRef(f, b) in ids {
        assert SameEntries(t, t', BlockRef(f, b).fn, BlockRef(f, b).block);
      } else {
        assert !Selected(m, NoMultiplePred, BlockRef(f, b));
        hide Completed, Covers, SameRecordedCounts, SameEntries, Trapped;
        SameAtJoin(m, main, t, t', f, b, k);
      }
    }
  }

  /** The only edge into a block is used as often as the block is entered. */
  lemma OnlyEdgeInto(m: Module, t: seq<Event>, f: nat, d: Edge)
    requires f < |m| && TrueEvents(m, t) && IsEdge(m[f].blocks, d)
    requires Target(m[f].blocks, d) != 0 && !TwoPreds(m[f].blocks, Target(m[f].blocks, d))
    ensures Taken(t, f)[d] == Entries(t, BlockRef(f, Target(m[f].blocks, d)))
  {
    var g, b := m[f].blocks, Target(m[f].blocks, d);
    var into := TakenInto(t, f, b);
    forall x
      ensures into[x] == if x == d then Taken(t, f)[d] else 0
    {
      IntoIsTaken(m, t, f, b, x);
      if IsEdge(g, x) && Target(g, x) == b && x != d {
        TwoEdgesGiveTwoPreds(g, x, d);
      }
    }
    assert into == multiset{}[d := into[d]];
    EntriesAreTaken(m, t, f, b);
  }

  /** Any edge, once all entries agree. */
  lemma SameEdge(m: Module, main: nat, t: seq<Event>, t': seq<Event>, f: nat, d: Edge)
    requires WellFormed(m) && NoCriticalEdges(m) && EntriesHaveNoPreds(m) && f < |m|
    requires Completed(m, t, main) && Completed(m, t', main)
    requires forall b :: 0 <= b < |m[f].blocks| ==> SameEntries(t, t', f, b)
    ensures Taken(t, f)[d] == Taken(t', f)[d]
  {
    var g := m[f].blocks;
    assert TrueEvents(m, t) && TrueEvents(m, t');
    if !IsEdge(g, d) {
      hide *;
      IntoIsTaken(m, t, f, 0, d);
      IntoIsTaken(m, t', f, 0, d);
    } else if |g[d.from].succs| == 1 {
      assert SameEntries(t, t', f, d.from);
      hide *;
      SameOnlyEdge(m, main, t, t', f, d);
    } else {
      ClosedFunction(m, f);
      var v := Target(g, d);
      assert v == g[d.from].succs[d.index] < |g|;
      assert !Critical(g, d) && !TwoPreds(g, v) && v != 0 && SameEntries(t, t', f, v);
      assert Entries(t, BlockRef(f, v)) == Entries(t', BlockRef(f, v));
      hide *;
      OnlyEdgeInto(m, t, f, d);
      OnlyEdgeInto(m, t', f, d);
    }
  }

  /** Completed runs with equal counts at the numbered blocks took every edge equally often. */
  lemma CountsDetermineEdges(
    m: Module, ids: map<BlockRef, nat>, main: nat, t: seq<Event>, t': seq<Event>, f: nat)
    requires WellFormed(m) && NoCriticalEdges(m) && EntriesHaveNoPreds(m) && Covers(m, ids)
    requires Completed(m, t, main) && Completed(m, t', main) && SameRecordedCounts(ids, t, t') && f < |m|
    ensures Taken(t, f) == Taken(t', f)
  {
    var g := m[f].blocks;
    assert forall b :: 0 <= b < |g| ==> !Leaves(g, b, 0);
    hide *;
    var bound := LeaveBound(g, |g|);
    SameAlongPaths(m, ids, main, t, t', f, 0, bound);
    forall d
      ensures Taken(t, f)[d] == Taken(t', f)[d]
    {
      SameEdge(m, main, t, t', f, d);
    }
  }

  /** Main result on one program: for two completed runs of a program without critical edges, under any
      two data semantics, equal numbers of entries into every numbered block mean that every edge of
      every function was taken equally often. */
  lemma EntryCountsGiveEdgeCounts<S, T>(
    m: Module, ids: map<BlockRef, nat>, main: nat, mem: Mem,
    sem: Sem<S>, data: S, n: nat, sem': Sem<T>, data': T, mem': Mem, n': nat, f: nat)
    requires WellFormed(m) && Plain(m) && IsBlock(m, main, 0) && f < |m|
    requires NoCriticalEdges(m) && EntriesHaveNoPreds(m) && Covers(m, ids)
    requires Valid(m, Start(main, data, mem)) && Valid(m, Start(main, data', mem'))
    requires Run(m, sem, Start(main, data, mem), n).Halted? && Run(m, sem', Start(main, data', mem'), n').Halted?
    requires SameRecordedCounts(ids, Trace(m, sem, Start(main, data, mem), n),
                                Trace(m, sem', Start(main, data', mem'), n'))
    ensures Taken(Trace(m, sem, Start(main, data, mem), n), f) ==
            Taken(Trace(m, sem', Start(main, data', mem'), n'), f)
  {
    hide *;
    HaltedIsCompleted(m, sem, main, data, mem, n);
    HaltedIsCompleted(m, sem', main, data', mem', n');
    CountsDetermineEdges(m, ids, main, Trace(m, sem, Start(main, data, mem), n),
                         Trace(m, sem', Start(main, data', mem'), n'), f);
  }

  // ----- back to the original program -----

  /** Splitting leads no edge to an entry block. */
  lemma SplitKeepsEntries(m: Module, m': Module, origins: seq<seq<Edge>>)
    requires WellFormed(m) && IsSplitModule(m, m', origins) && EntriesHaveNoPreds(m)
    ensures EntriesHaveNoPreds(m')
  {
    forall f, d | 0 <= f < |m'| && IsEdge(m'[f].blocks, d)
      ensures Target(m'[f].blocks, d) != 0
    {
      var g, g', origin := m[f].blocks, m'[f].blocks, origins[f];
      assert IsFullySplit(g, g', origin);
      assert |origin| > 0 ==> origin[0] in origin;
      assert |g| > 0;
      if Target(g', d) < |g| {
        AncestorKeepsTarget(g, g', origin, d);
      }
    }
  }

  /** Erasing the inserted blocks keeps the count of every original edge. */
  lemma {:induction false} EraseKeepsTaken(m: Module, m': Module, t: seq<Event>, f: nat, d: Edge)
    requires f < |m| && d.from < |m[f].blocks|
    ensures Taken(EraseTrace(m, m', t), f)[d] == Taken(t, f)[d]
  {
    if t != [] {
      var before, e := t[..|t| - 1], t[|t| - 1];
      EraseKeepsTaken(m, m', before, f, d);
      var s, ev := EraseTrace(m, m', before), EraseEvent(m, m', e);
      assert ev == [] ==> s + ev == s;
      assert ev != [] ==> (s + ev)[..|s|] == s && ev[0].at.fn == e.at.fn && ev[0].via == e.via;
      hide EraseTrace, EraseEvent;
    }
  }

  lemma ErasedCountsAgree(
    m: Module, m': Module, t: seq<Event>, t': seq<Event>, s: seq<Event>, s': seq<Event>, f: nat)
    requires WellFormed(m) && f < |m| && Taken(t, f) == Taken(t', f)
    requires s == EraseTrace(m, m', t) && s' == EraseTrace(m, m', t') && TrueEvents(m, s) && TrueEvents(m, s')
    ensures Taken(s, f) == Taken(s', f)
  {
    hide TrueEvents, Taken, EraseTrace;
    forall d
      ensures Taken(s, f)[d] == Taken(s', f)[d]
    {
      if d.from < |m[f].blocks| {
        EraseKeepsTaken(m, m', t, f, d);
        EraseKeepsTaken(m, m', t', f, d);
      } else {
        IntoIsTaken(m, s, f, 0, d);
        IntoIsTaken(m, s', f, 0, d);
      }
    }
  }

  /** The erased trace of a completed run of the split program is that of a completed original run. */
  lemma OriginalOf<S>(
    m: Module, m': Module, origins: seq<seq<Edge>>, sem: Sem<S>, main: nat, data: S, mem: Mem, n: nat)
    returns (j: nat)
    requires WellFormed(m) && WellFormed(m') && IsBlock(m, main, 0) && IsSplitModule(m, m', origins)
    requires Valid(m', Start(main, data, mem)) && Run(m', sem, Start(main, data, mem), n).Halted?
    ensures Valid(m, Start(main, data, mem)) && Run(m, sem, Start(main, data, mem), j).Halted?
    ensures Trace(m, sem, Start(main, data, mem), j) ==
            EraseTrace(m, m', Trace(m', sem, Start(main, data, mem), n))
  {
    var c := Start(main, data, mem);
    assert EraseConfig(m, m', c) == c by {
      assert EraseStack(m, m', [Frame(main, 0, 0)]) == [Frame(main, 0, 0)];
    }
    assert Valid(m, c);
    j := OriginalSteps(m, m', sem, c, n);
    SplitPreservesRuns(m, m', origins, sem, c, n);
    hide Step, StepEvent, Run, Trace, IsSplitModule, WellFormed, Valid, OriginalSteps, EraseTrace;
  }

  /** Main result: split a program, number its blocks of in-degree below two, and run it to completion
      on two inputs. If every numbered block was entered equally often, the original program takes
      every edge equally often on both inputs. */
  lemma EntryCountsGiveOriginalEdgeCounts<S, T>(
    m: Module, m': Module, origins: seq<seq<Edge>>, ids: map<BlockRef, nat>, main: nat, mem: Mem,
    sem: Sem<S>, data: S, n: nat, sem': Sem<T>, data': T, mem': Mem, n': nat)
    returns (j: nat, j': nat)
    requires WellFormed(m) && Plain(m) && IsBlock(m, main, 0) && EntriesHaveNoPreds(m)
    requires IsSplitModule(m, m', origins) && WellFormed(m') && Covers(m', ids)
    requires Valid(m', Start(main, data, mem)) && Valid(m', Start(main, data', mem'))
    requires Run(m', sem, Start(main, data, mem), n).Halted? && Run(m', sem', Start(main, data', mem'), n').Halted?
    requires SameRecordedCounts(ids, Trace(m', sem, Start(main, data, mem), n),
                                Trace(m', sem', Start(main, data', mem'), n'))
    ensures Valid(m, Start(main, data, mem)) && Valid(m, Start(main, data', mem'))
    ensures Run(m, sem, Start(main, data, mem), j).Halted? && Run(m, sem', Start(main, data', mem'), j').Halted?
    ensures forall f :: 0 <= f < |m| ==>
              Taken(Trace(m, sem, Start(main, data, mem), j), f) ==
              Taken(Trace(m, sem', Start(main, data', mem'), j'), f)
  {
    assert |m| == |m'|;
    SplitModuleWellFormed(m, m', origins);
    assert NoCriticalEdges(m');
    StartsInSplit(m, m', origins, main);
    hide *;
    SplitModulePlain(m, m', origins);
    SplitKeepsEntries(m, m', origins);
    j := OriginalOf(m, m', origins, sem, main, data, mem, n);
    j' := OriginalOf(m, m', origins, sem', main, data', mem', n');
    TraceIsTrue(m, sem, Start(main, data, mem), j);
    TraceIsTrue(m, sem', Start(main, data', mem'), j');
    forall f | 0 <= f < |m|
      ensures Taken(Trace(m, sem, Start(main, data, mem), j), f) ==
              Taken(Trace(m, sem', Start(main, data', mem'), j'), f)
    {
      EntryCountsGiveEdgeCounts(m', ids, main, mem, sem, data, n, sem', data', mem', n', f);
      ErasedCountsAgree(m, m',
                        Trace(m', sem, Start(main, data, mem), n), Trace(m', sem', Start(main, data', mem'), n'),
                        Trace(m, sem, Start(main, data, mem), j), Trace(m, sem', Start(main, data', mem'), j'), f);
    }
  }

  lemma StartsInSplit(m: Module, m': Module, origins: seq<seq<Edge>>, main: nat)
    requires IsSplitModule(m, m', origins) && IsBlock(m, main, 0)
    ensures IsBlock(m', main, 0)
  {
    assert IsFullySplit(m[main].blocks, m'[main].blocks, origins[main]);
  }
}
