/** What the recorded block IDs say about a run: with critical edges split and every
    block of in-degree below two numbered, the ID sequence determines the whole run. */
module PathRecovery {
  import opened Ir
  import opened SplitEdges
  import opened BlockIds

  /** Every block with fewer than two incoming edges is numbered. */
  ghost predicate Covers(m: Module, ids: map<BlockRef, nat>)
  {
    forall r :: Selected(m, NoMultiplePred, r) ==> r in ids
  }

  ghost predicate NoCriticalEdges(m: Module)
  {
    forall f :: 0 <= f < |m| ==> NoCriticalEdge(m[f].blocks)
  }

  ghost predicate SameControl<S, T>(c: Config<S>, d: Config<T>)
  {
    || (c.Running? && d.Running? && c.stack == d.stack)
    || (c.Halted? && d.Halted?)
  }

  ghost predicate Comparable(s: seq<nat>, t: seq<nat>)
  {
    s <= t || t <= s
  }

  lemma {:induction false} IdTraceGrows<S>(
    m: Module, ids: map<BlockRef, nat>, sem: Sem<S>, c: Config<S>, k: nat, n: nat)
    requires WellFormed(m) && Valid(m, c) && k <= n
    ensures IdTrace(ids, Trace(m, sem, c, k)) <= IdTrace(ids, Trace(m, sem, c, n))
    decreases n - k
  {
    hide Step, StepEvent;
    if k < n {
      IdTraceGrows(m, ids, sem, c, k, n - 1);
      EventAtMostOne(m, sem, Run(m, sem, c, n - 1));
      IdTraceAppend(ids, Trace(m, sem, c, n - 1), StepEvent(m, sem, Run(m, sem, c, n - 1)));
    }
  }

  /** What taking the i-th edge out of block b adds to the record. */
  function EdgeRecord(m: Module, ids: map<BlockRef, nat>, f: nat, b: nat, i: nat): (r: seq<nat>)
    requires IsBlock(m, f, b) && i < |m[f].blocks[b].succs|
    ensures var v := BlockRef(f, m[f].blocks[b].succs[i]);
            r == if v in ids then [ids[v]] else []
  {
    var e := Enter(BlockRef(f, m[f].blocks[b].succs[i]), ByEdge(b, i));
    assert [e][..0] == [] && IdTrace(ids, [e][..0]) == [];
    IdTrace(ids, [e])
  }

  /** Two edges out of the same branching block that are recorded alike are the same edge. */
  lemma BranchIsRecorded(m: Module, ids: map<BlockRef, nat>, f: nat, b: nat, i: nat, j: nat)
    requires WellFormed(m) && NoCriticalEdges(m) && Covers(m, ids) && Injective(ids)
    requires IsBlock(m, f, b)
    requires i < |m[f].blocks[b].succs| && j < |m[f].blocks[b].succs|
    requires Comparable(EdgeRecord(m, ids, f, b, i), EdgeRecord(m, ids, f, b, j))
    ensures i == j
  {
    var g := m[f].blocks;
    if i != j {
      ClosedFunction(m, f);
      assert IsEdge(g, Edge(b, i)) && IsEdge(g, Edge(b, j));
      hide EdgeRecord, WellFormed, Comparable;
      RecordsDiffer(m, ids, f, b, i, j);
    }
  }

  /** Distinct edges out of one block that are not critical leave incomparable records. */
  lemma RecordsDiffer(m: Module, ids: map<BlockRef, nat>, f: nat, b: nat, i: nat, j: nat)
    requires WellFormed(m) && Covers(m, ids) && Injective(ids) && IsBlock(m, f, b)
    requires i < |m[f].blocks[b].succs| && j < |m[f].blocks[b].succs| && i != j
    requires !Critical(m[f].blocks, Edge(b, i)) && !Critical(m[f].blocks, Edge(b, j))
    ensures !Comparable(EdgeRecord(m, ids, f, b, i), EdgeRecord(m, ids, f, b, j))
  {
    var g, d, e := m[f].blocks, Edge(b, i), Edge(b, j);
    ClosedFunction(m, f);
    var p, q := BlockRef(f, Target(g, d)), BlockRef(f, Target(g, e));
    assert Selected(m, NoMultiplePred, p) && Selected(m, NoMultiplePred, q);
    if p == q {
      TwoEdgesGiveTwoPreds(g, d, e);
    }
    assert ids[p] != ids[q];
    assert [ids[p]][0] != [ids[q]][0];
  }

  /** Under NO_MULTIPLE_PRED a branching block's edges are told apart by what they record, every pair
      of them, exactly when none of them is critical. */
  lemma EdgesToldApartIff(m: Module, ids: map<BlockRef, nat>, f: nat, b: nat)
    requires WellFormed(m) && Records(m, NoMultiplePred, ids) && Injective(ids)
    requires IsBlock(m, f, b) && |m[f].blocks[b].succs| > 1
    ensures (forall i, j | 0 <= i < j < |m[f].blocks[b].succs| ::
               !Comparable(EdgeRecord(m, ids, f, b, i), EdgeRecord(m, ids, f, b, j)))
       <==> (forall i | 0 <= i < |m[f].blocks[b].succs| :: !Critical(m[f].blocks, Edge(b, i)))
  {
    var g, n := m[f].blocks, |m[f].blocks[b].succs|;
    NoMultiplePredCovers(m, ids);
    hide EdgeRecord, Comparable, Critical, WellFormed, Records, Covers, Injective;
    if forall i | 0 <= i < n :: !Critical(g, Edge(b, i)) {
      forall i, j | 0 <= i < j < n
        ensures !Comparable(EdgeRecord(m, ids, f, b, i), EdgeRecord(m, ids, f, b, j))
      {
        RecordsDiffer(m, ids, f, b, i, j);
      }
    } else {
      var i :| 0 <= i < n && Critical(g, Edge(b, i));
      if i == 0 {
        CriticalIsUnrecorded(m, ids, f, b, i, 1);
      } else {
        CriticalIsUnrecorded(m, ids, f, b, i, 0);
      }
    }
  }

  lemma NoMultiplePredCovers(m: Module, ids: map<BlockRef, nat>)
    requires Records(m, NoMultiplePred, ids)
    ensures Covers(m, ids)
  {
  }

  /** A critical edge records nothing, which is comparable with whatever another edge records. */
  lemma CriticalIsUnrecorded(m: Module, ids: map<BlockRef, nat>, f: nat, b: nat, i: nat, j: nat)
    requires Records(m, NoMultiplePred, ids) && IsBlock(m, f, b)
    requires i < |m[f].blocks[b].succs| && j < |m[f].blocks[b].succs| && Critical(m[f].blocks, Edge(b, i))
    ensures Comparable(EdgeRecord(m, ids, f, b, i), EdgeRecord(m, ids, f, b, j))
    ensures Comparable(EdgeRecord(m, ids, f, b, j), EdgeRecord(m, ids, f, b, i))
  {
    hide IdTrace;
    assert !Selected(m, NoMultiplePred, BlockRef(f, Target(m[f].blocks, Edge(b, i))));
  }

  /** Returns and branches: the record tells the branches apart. */
  lemma LockstepTerm<S, T>(
    m: Module, ids: map<BlockRef, nat>, sem: Sem<S>, c: Config<S>, sem': Sem<T>, d: Config<T>)
    requires WellFormed(m) && NoCriticalEdges(m) && Covers(m, ids) && Injective(ids)
    requires Valid(m, c) && Valid(m, d) && c.Running? && d.Running? && c.stack == d.stack
    requires var blk := BlockOf(m, Top(c));
             Comparable(IdTrace(ids, TermEvent(sem, c, blk)), IdTrace(ids, TermEvent(sem', d, blk)))
    ensures var blk := BlockOf(m, Top(c));
            && SameControl(StepTerm(sem, c, blk), StepTerm(sem', d, blk))
            && TermEvent(sem, c, blk) == TermEvent(sem', d, blk)
  {
    var fr := Top(c);
    var blk := BlockOf(m, fr);
    if blk.succs != [] {
      var i := Pick(sem.branch(blk.term, c.data), |blk.succs|);
      var j := Pick(sem'.branch(blk.term, d.data), |blk.succs|);
      assert IdTrace(ids, TermEvent(sem, c, blk)) == EdgeRecord(m, ids, fr.fn, fr.block, i);
      assert IdTrace(ids, TermEvent(sem', d, blk)) == EdgeRecord(m, ids, fr.fn, fr.block, j);
      hide IdTrace, EdgeRecord, Comparable, WellFormed, NoCriticalEdges, Covers, Injective;
      BranchIsRecorded(m, ids, fr.fn, fr.block, i, j);
    }
  }

  /** Instructions: control does not depend on the data. */
  lemma LockstepInstr<S, T>(m: Module, sem: Sem<S>, c: Config<S>, sem': Sem<T>, d: Config<T>, i: Instr)
    requires c.Running? && d.Running? && |c.stack| > 0 && c.stack == d.stack
    requires !i.Emit? && (i.Call? ==> i.callee < |m|)
    ensures SameControl(StepInstr(m, sem, c, i), StepInstr(m, sem', d, i))
  {
    hide ExecProbe;
  }

  lemma PlainInstr(m: Module, fr: Frame)
    requires Plain(m) && ValidFrame(m, fr) && fr.pc < |BlockOf(m, fr).body|
    ensures !BlockOf(m, fr).body[fr.pc].Emit?
  {
  }

  lemma SameFrame<S, T>(m: Module, c: Config<S>, d: Config<T>)
    requires Valid(m, c) && SameControl(c, d)
    ensures c.Running? <==> d.Running?
    ensures c.Running? ==> c.stack == d.stack && |c.stack| > 0 && ValidFrame(m, Top(c)) && Top(d) == Top(c)
    ensures !c.Running? ==> c.Halted? && d.Halted?
    ensures c.Running? ==> Top(c).pc < |BlockOf(m, Top(c)).body| || Top(c).pc == |BlockOf(m, Top(c)).body|
  {
  }

  /** One step: equal control and comparable records stay equal. */
  lemma LockstepOnce<S, T>(
    m: Module, ids: map<BlockRef, nat>, sem: Sem<S>, c: Config<S>, sem': Sem<T>, d: Config<T>)
    requires WellFormed(m) && Plain(m) && NoCriticalEdges(m) && Covers(m, ids) && Injective(ids)
    requires Valid(m, c) && Valid(m, d) && SameControl(c, d)
    requires Comparable(IdTrace(ids, StepEvent(m, sem, c)), IdTrace(ids, StepEvent(m, sem', d)))
    ensures SameControl(Step(m, sem, c), Step(m, sem', d))
    ensures StepEvent(m, sem, c) == StepEvent(m, sem', d)
  {
    hide *;
    SameFrame(m, c, d);
    if !c.Running? {
      HaltedStep(m, sem, c);
      HaltedStep(m, sem', d);
      BothHalted(c, d);
    } else if Top(c).pc < |BlockOf(m, Top(c)).body| {
      PlainInstr(m, Top(c));
      StepIsInstr(m, sem, c);
      StepIsInstr(m, sem', d);
      LockstepInstr(m, sem, c, sem', d, BlockOf(m, Top(c)).body[Top(c).pc]);
    } else {
      StepIsTerm(m, sem, c);
      StepIsTerm(m, sem', d);
      LockstepTerm(m, ids, sem, c, sem', d);
    }
  }

  lemma BothHalted<S, T>(c: Config<S>, d: Config<T>)
    requires c.Halted? && d.Halted?
    ensures SameControl(c, d)
  {
  }

  lemma ComparableStep(s: seq<nat>, p: seq<nat>, q: seq<nat>, u: seq<nat>, v: seq<nat>)
    requires Comparable(u, v) && s + p <= u && s + q <= v && |p| <= 1 && |q| <= 1
    ensures Comparable(p, q)
  {
    if |p| == 1 && |q| == 1 {
      assert (s + p)[|s|] == p[0] && (s + q)[|s|] == q[0];
      assert u[|s|] == v[|s|];
    }
  }

  /** After equal traces, the records of the next steps are comparable too. */
  lemma NextRecordsComparable<S, T>(
    m: Module, ids: map<BlockRef, nat>,
    sem: Sem<S>, c: Config<S>, n: nat, sem': Sem<T>, d: Config<T>, n': nat, k: nat)
    requires WellFormed(m) && Valid(m, c) && Valid(m, d) && k < n && k < n'
    requires Comparable(IdTrace(ids, Trace(m, sem, c, n)), IdTrace(ids, Trace(m, sem', d, n')))
    requires Trace(m, sem, c, k) == Trace(m, sem', d, k)
    ensures Comparable(IdTrace(ids, StepEvent(m, sem, Run(m, sem, c, k))),
                       IdTrace(ids, StepEvent(m, sem', Run(m, sem', d, k))))
  {
    var s := Trace(m, sem, c, k);
    var p, q := StepEvent(m, sem, Run(m, sem, c, k)), StepEvent(m, sem', Run(m, sem', d, k));
    NextStep(m, sem, c, k);
    NextStep(m, sem', d, k);
    EventAtMostOne(m, sem, Run(m, sem, c, k));
    EventAtMostOne(m, sem', Run(m, sem', d, k));
    hide *;
    IdTraceGrows(m, ids, sem, c, k + 1, n);
    IdTraceGrows(m, ids, sem', d, k + 1, n');
    IdTraceAppend(ids, s, p);
    IdTraceAppend(ids, s, q);
    IdTraceShort(ids, p);
    IdTraceShort(ids, q);
    ComparableStep(IdTrace(ids, s), IdTrace(ids, p), IdTrace(ids, q),
                   IdTrace(ids, Trace(m, sem, c, n)), IdTrace(ids, Trace(m, sem', d, n')));
  }

  lemma IdTraceShort(ids: map<BlockRef, nat>, t: seq<Event>)
    requires |t| <= 1
    ensures |IdTrace(ids, t)| <= 1
  {
    if t != [] {
      assert t[..0] == [];
    }
  }

  /** Runs of the same module, under any two data semantics, whose records are comparable
      are in the same control state with the same trace as long as both are recorded. */
  lemma {:induction false} Lockstep<S, T>(
    m: Module, ids: map<BlockRef, nat>,
    sem: Sem<S>, c: Config<S>, n: nat, sem': Sem<T>, d: Config<T>, n': nat, k: nat)
    requires WellFormed(m) && Plain(m) && NoCriticalEdges(m) && Covers(m, ids) && Injective(ids)
    requires Valid(m, c) && Valid(m, d) && SameControl(c, d) && k <= n && k <= n'
    requires Comparable(IdTrace(ids, Trace(m, sem, c, n)), IdTrace(ids, Trace(m, sem', d, n')))
    ensures SameControl(Run(m, sem, c, k), Run(m, sem', d, k))
    ensures Trace(m, sem, c, k) == Trace(m, sem', d, k)
  {
    hide *;
    RunZero(m, sem, c);
    RunZero(m, sem', d);
    if k > 0 {
      Lockstep(m, ids, sem, c, n, sem', d, n', k - 1);
      NextRecordsComparable(m, ids, sem, c, n, sem', d, n', k - 1);
      LockstepOnce(m, ids, sem, Run(m, sem, c, k - 1), sem', Run(m, sem', d, k - 1));
      NextStep(m, sem, c, k - 1);
      NextStep(m, sem', d, k - 1);
    }
  }

  lemma HaltedStep<S>(m: Module, sem: Sem<S>, c: Config<S>)
    requires WellFormed(m) && Valid(m, c) && c.Halted?
    ensures Step(m, sem, c) == c && StepEvent(m, sem, c) == []
  {
  }

  lemma {:induction false} HaltedStays<S>(m: Module, sem: Sem<S>, c: Config<S>, k: nat, n: nat)
    requires WellFormed(m) && Valid(m, c) && k <= n && Run(m, sem, c, k).Halted?
    ensures Run(m, sem, c, n) == Run(m, sem, c, k)
    ensures Trace(m, sem, c, n) == Trace(m, sem, c, k)
    decreases n - k
  {
    hide *;
    if k < n {
      HaltedStays(m, sem, c, k, n - 1);
      NextStep(m, sem, c, n - 1);
      HaltedStep(m, sem, Run(m, sem, c, n - 1));
      assert Trace(m, sem, c, n - 1) + [] == Trace(m, sem, c, n - 1);
    }
  }

  /** Complete runs with the same recorded IDs are the same run. */
  lemma RecordDeterminesRun<S, T>(
    m: Module, ids: map<BlockRef, nat>,
    sem: Sem<S>, c: Config<S>, n: nat, sem': Sem<T>, d: Config<T>, n': nat)
    requires WellFormed(m) && Plain(m) && NoCriticalEdges(m) && Covers(m, ids) && Injective(ids)
    requires Valid(m, c) && Valid(m, d) && SameControl(c, d)
    requires Run(m, sem, c, n).Halted? && Run(m, sem', d, n').Halted?
    requires IdTrace(ids, Trace(m, sem, c, n)) == IdTrace(ids, Trace(m, sem', d, n'))
    ensures Trace(m, sem, c, n) == Trace(m, sem', d, n')
  {
    hide Step, StepEvent;
    if n <= n' {
      Lockstep(m, ids, sem, c, n, sem', d, n', n);
      HaltedStays(m, sem', d, n, n');
    } else {
      Lockstep(m, ids, sem, c, n, sem', d, n', n');
      HaltedStays(m, sem, c, n', n);
    }
  }

  lemma SplitModulePlain(m: Module, m': Module, origins: seq<seq<Edge>>)
    requires Plain(m) && IsSplitModule(m, m', origins)
    ensures Plain(m')
  {
    forall f, b, p | 0 <= f < |m'| && 0 <= b < |m'[f].blocks| && 0 <= p < |m'[f].blocks[b].body|
      ensures !m'[f].blocks[b].body[p].Emit?
    {
      assert IsFullySplit(m[f].blocks, m'[f].blocks, origins[f]);
      assert b >= |m[f].blocks| ==> IsFresh(m[f].blocks, m'[f].blocks, origins[f], b);
      assert m'[f].blocks[b].body == m[f].blocks[b].body;
    }
  }

  /** Main result. Split a program, number its blocks of in-degree below two injectively and
      run it to completion on two inputs. If the recorded IDs agree, then the original program
      takes the very same edges in the very same order on both inputs, so per-edge counts agree. */
  lemma RecordDeterminesOriginalRun<S, T>(
    m: Module, m': Module, origins: seq<seq<Edge>>, ids: map<BlockRef, nat>, main: nat, mem: Mem,
    sem: Sem<S>, data: S, n: nat, sem': Sem<T>, data': T, n': nat)
    requires WellFormed(m) && Plain(m) && IsBlock(m, main, 0)
    requires IsSplitModule(m, m', origins)
    requires WellFormed(m') && Covers(m', ids) && Injective(ids)
    requires Valid(m', Start(main, data, mem)) && Valid(m', Start(main, data', mem))
    requires Run(m', sem, Start(main, data, mem), n).Halted?
    requires Run(m', sem', Start(main, data', mem), n').Halted?
    requires IdTrace(ids, Trace(m', sem, Start(main, data, mem), n)) ==
             IdTrace(ids, Trace(m', sem', Start(main, data', mem), n'))
    ensures Valid(m, Start(main, data, mem)) && Valid(m, Start(main, data', mem))
    ensures exists j, j' ::
              && Run(m, sem, Start(main, data, mem), j).Halted?
              && Run(m, sem', Start(main, data', mem), j').Halted?
              && Trace(m, sem, Start(main, data, mem), j) == Trace(m, sem', Start(main, data', mem), j')
  {
    hide Step, StepEvent, IsSplitModule;
    var c, d := Start(main, data, mem), Start(main, data', mem);
    SplitModuleWellFormed(m, m', origins);
    SplitModulePlain(m, m', origins);
    RecordDeterminesRun(m', ids, sem, c, n, sem', d, n');
    assert EraseConfig(m, m', c) == c && EraseConfig(m, m', d) == d by {
      assert EraseStack(m, m', [Frame(main, 0, 0)]) == [Frame(main, 0, 0)];
    }
    SplitPreservesRuns(m, m', origins, sem, c, n);
    SplitPreservesRuns(m, m', origins, sem', d, n');
    var j, j' := OriginalSteps(m, m', sem, c, n), OriginalSteps(m, m', sem', d, n');
    assert Run(m, sem, c, j).Halted? && Run(m, sem', d, j').Halted?;
  }

  /** The assigner's sequential numbering, under either selection, meets the assumptions above. */
  lemma SequentialIdsSuffice(m: Module, sel: Selection, ids: map<BlockRef, nat>)
    requires Records(m, sel, ids) && Numbers(ids, Sequential)
    ensures Covers(m, ids) && Injective(ids)
  {
    SequentialIsBijective(ids);
  }

  // ----- splitting is needed -----

  const FORK: Module :=
    [Func([Block([], 0, [1, 2, 1, 2]), Block([], 0, []), Block([], 0, [])])]

  ghost predicate SameRecordOtherRun(
    ids: map<BlockRef, nat>, sem: Sem<nat>, c: Config<nat>, d: Config<nat>, n: nat)
    requires WellFormed(FORK) && Valid(FORK, c) && Valid(FORK, d)
  {
    && Run(FORK, sem, c, n).Halted? && Run(FORK, sem, d, n).Halted?
    && IdTrace(ids, Trace(FORK, sem, c, n)) == IdTrace(ids, Trace(FORK, sem, d, n))
    && Trace(FORK, sem, c, n) != Trace(FORK, sem, d, n)
  }

  /** Without splitting the record may say nothing: here both exits have two incoming edges. */
  lemma SplittingIsNeeded(ids: map<BlockRef, nat>, mem: Mem) returns (sem: Sem<nat>)
    requires Records(FORK, NoMultiplePred, ids)
    ensures WellFormed(FORK)
    ensures Valid(FORK, Start(0, 0, mem)) && Valid(FORK, Start(0, 1, mem))
    ensures SameRecordOtherRun(ids, sem, Start(0, 0, mem), Start(0, 1, mem), 2)
  {
    sem := Sem((o, s) => s, (o, s) => s, (t, s) => s);
    ForkRun(ids, mem, sem, 0);
    ForkRun(ids, mem, sem, 1);
    hide Step, StepEvent, Run, Trace, IdTrace, WellFormed, Records, Valid;
    var t0, t1 := Trace(FORK, sem, Start(0, 0, mem), 2), Trace(FORK, sem, Start(0, 1, mem), 2);
    assert t0[0].at != t1[0].at;
  }

  lemma ForkExitsUnrecorded(ids: map<BlockRef, nat>, b: nat)
    requires Records(FORK, NoMultiplePred, ids)
    requires b == 1 || b == 2
    ensures BlockRef(0, b) !in ids
  {
    var g := FORK[0].blocks;
    TwoEdgesGiveTwoPreds(g, Edge(0, b - 1), Edge(0, b + 1));
  }

  lemma ForkRun(ids: map<BlockRef, nat>, mem: Mem, sem: Sem<nat>, x: nat)
    requires Records(FORK, NoMultiplePred, ids)
    requires x < 2 && sem.branch(0, x) == x
    ensures WellFormed(FORK) && Valid(FORK, Start(0, x, mem))
    ensures Run(FORK, sem, Start(0, x, mem), 2).Halted?
    ensures Trace(FORK, sem, Start(0, x, mem), 2) == [Enter(BlockRef(0, x + 1), ByEdge(0, x))]
    ensures IdTrace(ids, Trace(FORK, sem, Start(0, x, mem), 2)) == []
  {
    ForkExitsUnrecorded(ids, x + 1);
    ForkSteps(mem, sem, x);
    var c := Start(0, x, mem);
    var ev := Enter(BlockRef(0, x + 1), ByEdge(0, x));
    assert Run(FORK, sem, c, 0) == c && Trace(FORK, sem, c, 0) == [];
    assert IdTrace(ids, [ev]) == IdTrace(ids, []) + [] == [];
    hide *;
    NextStep(FORK, sem, c, 0);
    NextStep(FORK, sem, c, 1);
    assert Trace(FORK, sem, c, 1) == [] + [ev] == [ev];
    assert [ev] + [] == [ev];
  }

  lemma ForkSteps(mem: Mem, sem: Sem<nat>, x: nat)
    requires x < 2 && sem.branch(0, x) == x
    ensures WellFormed(FORK)
    ensures var c, d := Start(0, x, mem), Running([Frame(0, x + 1, 0)], x, mem);
            && Valid(FORK, c) && Valid(FORK, d)
            && Step(FORK, sem, c) == d && Step(FORK, sem, d) == Halted(x, mem)
            && StepEvent(FORK, sem, c) == [Enter(BlockRef(0, x + 1), ByEdge(0, x))]
            && StepEvent(FORK, sem, d) == []
  {
    assert FORK[0].blocks[0].succs[x] == x + 1;
  }
}
