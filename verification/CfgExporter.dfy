/** The CFG exporter: the typed edge list it collects, and the pushdown system those
    edges define, which accepts every run of the program. */
module CfgExporter {
  import BlockIds
  import opened Ir
  import opened SplitEdges

  datatype Kind = Jmp | Indirect

  datatype ExportedEdge = ExportedEdge(from: nat, to: nat, kind: Kind)

  /** A place in the module that may give rise to an edge: the index-th successor of a block,
      or the call at the index-th instruction of its body. */
  datatype Site = Site(fn: nat, block: nat, call: bool, index: nat)

  /** The order of collection: within a block, successors first, then calls. */
  predicate SiteBefore(s: Site, t: Site)
  {
    s.fn < t.fn || (s.fn == t.fn && (s.block < t.block || (s.block == t.block &&
      ((!s.call && t.call) || (s.call == t.call && s.index < t.index)))))
  }

  predicate IsSite(m: Module, s: Site)
  {
    && IsBlock(m, s.fn, s.block)
    && var blk := m[s.fn].blocks[s.block];
       if s.call then
         && s.index < |blk.body| && blk.body[s.index].Call?
         && blk.body[s.index].callee < |m| && m[blk.body[s.index].callee].blocks != []
       else s.index < |blk.succs|
  }

  function Source(s: Site): BlockRef
  {
    BlockRef(s.fn, s.block)
  }

  function Destination(m: Module, s: Site): BlockRef
    requires IsSite(m, s)
  {
    var blk := m[s.fn].blocks[s.block];
    if s.call then BlockRef(blk.body[s.index].callee, 0) else BlockRef(s.fn, blk.succs[s.index])
  }

  /** Both ends of the edge are numbered. */
  predicate IsExported(m: Module, ids: map<BlockRef, nat>, s: Site)
  {
    IsSite(m, s) && Source(s) in ids && Destination(m, s) in ids
  }

  function Label(m: Module, ids: map<BlockRef, nat>, s: Site): ExportedEdge
    requires IsExported(m, ids, s)
  {
    ExportedEdge(ids[Source(s)], ids[Destination(m, s)], if s.call then Indirect else Jmp)
  }

  /** `edges` lists the labels of `sites`, which are the exported sites before `cursor`, in order. */
  ghost predicate ExportsUpTo(
    m: Module, ids: map<BlockRef, nat>, edges: seq<ExportedEdge>, sites: seq<Site>, cursor: Site)
  {
    && (forall s :: s in sites <==> IsExported(m, ids, s) && SiteBefore(s, cursor))
    && (forall i, j :: 0 <= i < j < |sites| ==> SiteBefore(sites[i], sites[j]))
    && |edges| == |sites|
    && (forall i :: 0 <= i < |sites| ==> IsExported(m, ids, sites[i]) && edges[i] == Label(m, ids, sites[i]))
  }

  /** `edges` lists the labels of all exported sites, each once, in collection order. */
  ghost predicate Exports(
    m: Module, ids: map<BlockRef, nat>, edges: seq<ExportedEdge>, sites: seq<Site>)
  {
    && (forall s :: s in sites <==> IsExported(m, ids, s))
    && (forall i, j :: 0 <= i < j < |sites| ==> SiteBefore(sites[i], sites[j]))
    && |edges| == |sites|
    && (forall i :: 0 <= i < |sites| ==> IsExported(m, ids, sites[i]) && edges[i] == Label(m, ids, sites[i]))
  }

  /** `edges` is what the exporter should write, whichever sites are named. */
  ghost predicate EdgesOf(m: Module, ids: map<BlockRef, nat>, edges: seq<ExportedEdge>)
  {
    exists sites :: Exports(m, ids, edges, sites)
  }

  function LabelIfExported(m: Module, ids: map<BlockRef, nat>, s: Site): seq<ExportedEdge>
  {
    if IsExported(m, ids, s) then [Label(m, ids, s)] else []
  }

  lemma VisitSite(
    m: Module, ids: map<BlockRef, nat>, edges: seq<ExportedEdge>, sites: seq<Site>, s: Site)
    returns (sites': seq<Site>)
    requires ExportsUpTo(m, ids, edges, sites, s)
    ensures ExportsUpTo(m, ids, edges + LabelIfExported(m, ids, s), sites', s.(index := s.index + 1))
  {
    hide IsSite;
    sites' := if IsExported(m, ids, s) then sites + [s] else sites;
    forall t
      ensures t in sites' <==> IsExported(m, ids, t) && SiteBefore(t, s.(index := s.index + 1))
    {
      assert SiteBefore(t, s.(index := s.index + 1)) <==> SiteBefore(t, s) || t == s;
    }
    forall i, j | 0 <= i < j < |sites'|
      ensures SiteBefore(sites'[i], sites'[j])
    {
      assert sites[i] in sites;
    }
  }

  lemma SkipSites(
    m: Module, ids: map<BlockRef, nat>, edges: seq<ExportedEdge>, sites: seq<Site>, s: Site, t: Site)
    requires ExportsUpTo(m, ids, edges, sites, s)
    requires forall x :: IsExported(m, ids, x) ==> (SiteBefore(x, s) <==> SiteBefore(x, t))
    ensures ExportsUpTo(m, ids, edges, sites, t)
  {
  }

  /** Collect the edges of one block that is numbered. */
  method ExportBlock(
    m: Module, ids: map<BlockRef, nat>, f: nat, b: nat, edges: seq<ExportedEdge>, ghost sites: seq<Site>)
    returns (edges': seq<ExportedEdge>, ghost sites': seq<Site>)
    requires WellFormed(m) && IsBlock(m, f, b) && BlockRef(f, b) in ids
    requires ExportsUpTo(m, ids, edges, sites, Site(f, b, false, 0))
    ensures ExportsUpTo(m, ids, edges', sites', Site(f, b + 1, false, 0))
    ensures edges <= edges'
  {
    assert WellFormedBlocks(m, m[f].blocks);
    hide ExportsUpTo, SiteBefore, WellFormed;
    edges', sites' := edges, sites;
    var blk := m[f].blocks[b];
    var v := ids[BlockRef(f, b)];
    for i := 0 to |blk.succs|
      invariant ExportsUpTo(m, ids, edges', sites', Site(f, b, false, i)) && edges <= edges'
    {
      var to := BlockRef(f, blk.succs[i]);
      sites' := VisitSite(m, ids, edges', sites', Site(f, b, false, i));
      if to in ids {
        edges' := edges' + [ExportedEdge(v, ids[to], Jmp)];
      } else {
        assert edges' + [] == edges';
      }
    }
    SkipToCalls(m, ids, edges', sites', f, b);
    for i := 0 to |blk.body|
      invariant ExportsUpTo(m, ids, edges', sites', Site(f, b, true, i)) && edges <= edges'
    {
      sites' := VisitSite(m, ids, edges', sites', Site(f, b, true, i));
      assert edges' + [] == edges';
      if blk.body[i].Call? {
        var callee := blk.body[i].callee;
        if m[callee].blocks != [] {
          var to := BlockRef(callee, 0);
          if to in ids {
            edges' := edges' + [ExportedEdge(v, ids[to], Indirect)];
          }
        }
      }
    }
    SkipToNextBlock(m, ids, edges', sites', f, b);
  }

  lemma SkipToCalls(
    m: Module, ids: map<BlockRef, nat>, edges: seq<ExportedEdge>, sites: seq<Site>, f: nat, b: nat)
    requires IsBlock(m, f, b)
    requires ExportsUpTo(m, ids, edges, sites, Site(f, b, false, |m[f].blocks[b].succs|))
    ensures ExportsUpTo(m, ids, edges, sites, Site(f, b, true, 0))
  {
    SkipSites(m, ids, edges, sites, Site(f, b, false, |m[f].blocks[b].succs|), Site(f, b, true, 0));
  }

  lemma SkipToNextBlock(
    m: Module, ids: map<BlockRef, nat>, edges: seq<ExportedEdge>, sites: seq<Site>, f: nat, b: nat)
    requires IsBlock(m, f, b)
    requires ExportsUpTo(m, ids, edges, sites, Site(f, b, true, |m[f].blocks[b].body|))
    ensures ExportsUpTo(m, ids, edges, sites, Site(f, b + 1, false, 0))
  {
    SkipSites(m, ids, edges, sites, Site(f, b, true, |m[f].blocks[b].body|), Site(f, b + 1, false, 0));
  }

  lemma SkipUnnumberedBlock(
    m: Module, ids: map<BlockRef, nat>, edges: seq<ExportedEdge>, sites: seq<Site>, f: nat, b: nat)
    requires BlockRef(f, b) !in ids
    requires ExportsUpTo(m, ids, edges, sites, Site(f, b, false, 0))
    ensures ExportsUpTo(m, ids, edges, sites, Site(f, b + 1, false, 0))
  {
    SkipSites(m, ids, edges, sites, Site(f, b, false, 0), Site(f, b + 1, false, 0));
  }

  lemma SkipToNextFunction(
    m: Module, ids: map<BlockRef, nat>, edges: seq<ExportedEdge>, sites: seq<Site>, f: nat)
    requires f < |m|
    requires ExportsUpTo(m, ids, edges, sites, Site(f, |m[f].blocks|, false, 0))
    ensures ExportsUpTo(m, ids, edges, sites, Site(f + 1, 0, false, 0))
  {
    SkipSites(m, ids, edges, sites, Site(f, |m[f].blocks|, false, 0), Site(f + 1, 0, false, 0));
  }

  lemma ExportsAll(m: Module, ids: map<BlockRef, nat>, edges: seq<ExportedEdge>, sites: seq<Site>)
    requires ExportsUpTo(m, ids, edges, sites, Site(|m|, 0, false, 0))
    ensures Exports(m, ids, edges, sites)
  {
    hide Destination;
    forall s | IsExported(m, ids, s)
      ensures s in sites
    {
      assert SiteBefore(s, Site(|m|, 0, false, 0));
    }
  }

  /** The collection loop. */
  method Export(m: Module, ids: map<BlockRef, nat>)
    returns (edges: seq<ExportedEdge>, ghost sites: seq<Site>)
    requires WellFormed(m)
    ensures Exports(m, ids, edges, sites)
    ensures EdgesOf(m, ids, edges)
  {
    edges, sites := [], [];
    assert ExportsUpTo(m, ids, edges, sites, Site(0, 0, false, 0));
    for f := 0 to |m|
      invariant ExportsUpTo(m, ids, edges, sites, Site(f, 0, false, 0))
    {
      hide ExportsUpTo;
      for b := 0 to |m[f].blocks|
        invariant ExportsUpTo(m, ids, edges, sites, Site(f, b, false, 0))
      {
        if BlockRef(f, b) in ids {
          edges, sites := ExportBlock(m, ids, f, b, edges, sites);
        } else {
          SkipUnnumberedBlock(m, ids, edges, sites, f, b);
        }
      }
      SkipToNextFunction(m, ids, edges, sites, f);
    }
    ExportsAll(m, ids, edges, sites);
  }

  // ----- what the edge list says about the module -----

  /** The exported sites that are labelled e. */
  ghost function Labelled(m: Module, ids: map<BlockRef, nat>, sites: seq<Site>, e: ExportedEdge): set<Site>
  {
    set s | s in sites && IsExported(m, ids, s) && Label(m, ids, s) == e
  }

  /** An edge appears as often as the module has edges with its ends and kind. */
  lemma MultiplicityKept(
    m: Module, ids: map<BlockRef, nat>, edges: seq<ExportedEdge>, sites: seq<Site>, e: ExportedEdge)
    requires Exports(m, ids, edges, sites)
    ensures multiset(edges)[e] == |Labelled(m, ids, sites, e)|
    ensures forall s :: s in Labelled(m, ids, sites, e) <==> IsExported(m, ids, s) && Label(m, ids, s) == e
  {
    assert Distinct(sites) by {
      assert forall i, j :: 0 <= i < j < |sites| ==> SiteBefore(sites[i], sites[j]);
    }
    assert edges[..|sites|] == edges && sites[..|sites|] == sites;
    hide SiteBefore, IsExported, Label, Distinct;
    CountLabels(m, ids, edges, sites, |sites|, e);
  }

  predicate Distinct(sites: seq<Site>)
  {
    forall i, j :: 0 <= i < j < |sites| ==> sites[i] != sites[j]
  }

  lemma LastIsNew(sites: seq<Site>, n: nat)
    requires Distinct(sites) && 0 < n <= |sites|
    ensures forall s :: s in sites[..n] <==> s in sites[..n - 1] || s == sites[n - 1]
    ensures sites[n - 1] !in sites[..n - 1]
  {
    assert sites[..n] == sites[..n - 1] + [sites[n - 1]];
  }

  lemma LabelledStep(m: Module, ids: map<BlockRef, nat>, sites: seq<Site>, n: nat, e: ExportedEdge)
    requires Distinct(sites) && 0 < n <= |sites| && IsExported(m, ids, sites[n - 1])
    ensures |Labelled(m, ids, sites[..n], e)| ==
            |Labelled(m, ids, sites[..n - 1], e)| + (if Label(m, ids, sites[n - 1]) == e then 1 else 0)
  {
    LastIsNew(sites, n);
    hide IsExported, Label, Distinct;
    var x := sites[n - 1];
    var before := Labelled(m, ids, sites[..n - 1], e);
    assert x !in before;
    if Label(m, ids, x) == e {
      assert Labelled(m, ids, sites[..n], e) == before + {x};
    } else {
      assert Labelled(m, ids, sites[..n], e) == before;
    }
  }

  lemma CountStep<T>(s: seq<T>, n: nat, x: T)
    requires 0 < n <= |s|
    ensures multiset(s[..n])[x] == multiset(s[..n - 1])[x] + (if s[n - 1] == x then 1 else 0)
  {
    assert s[..n] == s[..n - 1] + [s[n - 1]];
  }

  lemma {:induction false} CountLabels(
    m: Module, ids: map<BlockRef, nat>, edges: seq<ExportedEdge>, sites: seq<Site>, n: nat, e: ExportedEdge)
    requires |edges| == |sites| && n <= |sites| && Distinct(sites)
    requires forall i :: 0 <= i < |sites| ==>
               IsExported(m, ids, sites[i]) && edges[i] == Label(m, ids, sites[i])
    ensures multiset(edges[..n])[e] == |Labelled(m, ids, sites[..n], e)|
  {
    if n == 0 {
      assert Labelled(m, ids, sites[..0], e) == {};
    } else {
      hide *;
      CountLabels(m, ids, edges, sites, n - 1, e);
      assert IsExported(m, ids, sites[n - 1]);
      LabelledStep(m, ids, sites, n, e);
      CountStep(edges, n, e);
    }
  }

  // ----- the pushdown system -----

  /** Entering a block jumps from the top of the stack or pushes from it, along an edge of the
      matching kind; any other step returns or stays. */
  predicate PushdownMove(edges: seq<ExportedEdge>, st: seq<nat>, events: seq<Event>, st': seq<nat>)
  {
    if events == [] then st' == st || (|st| > 0 && st' == st[..|st| - 1])
    else
      && |st| > 0
      && (if events[0].via.ByEdge? then
            |st'| == |st| && st'[..|st| - 1] == st[..|st| - 1] &&
            ExportedEdge(st[|st| - 1], st'[|st| - 1], Jmp) in edges
          else
            |st'| == |st| + 1 && st'[..|st|] == st &&
            ExportedEdge(st[|st| - 1], st'[|st|], Indirect) in edges)
  }

  function IdStack(ids: map<BlockRef, nat>, stack: seq<Frame>): (r: seq<nat>)
    requires forall i :: 0 <= i < |stack| ==> BlockRef(stack[i].fn, stack[i].block) in ids
    ensures |r| == |stack|
  {
    seq(|stack|, i requires 0 <= i < |stack| => ids[BlockRef(stack[i].fn, stack[i].block)])
  }

  ghost predicate AllNumbered(m: Module, ids: map<BlockRef, nat>)
  {
    forall f, b :: 0 <= f < |m| && 0 <= b < |m[f].blocks| ==> BlockRef(f, b) in ids
  }

  /** The numbers of the blocks on the call stack; empty once the program has stopped. */
  ghost function Ids<S>(m: Module, ids: map<BlockRef, nat>, c: Config<S>): seq<nat>
    requires AllNumbered(m, ids) && Valid(m, c)
  {
    if c.Running? then IdStack(ids, c.stack) else []
  }

  lemma SiteIsListed(
    m: Module, ids: map<BlockRef, nat>, edges: seq<ExportedEdge>, sites: seq<Site>, s: Site)
    requires Exports(m, ids, edges, sites) && IsExported(m, ids, s)
    ensures Label(m, ids, s) in edges
  {
    var i :| 0 <= i < |sites| && sites[i] == s;
    assert edges[i] == Label(m, ids, s);
  }

  /** Every step of the program is a move along the exported edges. */
  lemma StepIsPushdownMove<S>(
    m: Module, ids: map<BlockRef, nat>, edges: seq<ExportedEdge>, sites: seq<Site>, sem: Sem<S>, c: Config<S>)
    requires WellFormed(m) && AllNumbered(m, ids) && Exports(m, ids, edges, sites) && Valid(m, c)
    requires !Step(m, sem, c).Fault?
    ensures PushdownMove(edges, Ids(m, ids, c), StepEvent(m, sem, c), Ids(m, ids, Step(m, sem, c)))
  {
    if c.Running? {
      var fr := Top(c);
      var blk := BlockOf(m, fr);
      if fr.pc < |blk.body| {
        StepIsInstr(m, sem, c);
        InstrIsMove(m, ids, edges, sites, sem, c);
      } else {
        StepIsTerm(m, sem, c);
        TermIsMove(m, ids, edges, sites, sem, c);
      }
    }
  }

  lemma InstrIsMove<S>(
    m: Module, ids: map<BlockRef, nat>, edges: seq<ExportedEdge>, sites: seq<Site>, sem: Sem<S>, c: Config<S>)
    requires WellFormed(m) && AllNumbered(m, ids) && Exports(m, ids, edges, sites) && Valid(m, c)
    requires c.Running? && Top(c).pc < |BlockOf(m, Top(c)).body|
    requires !Step(m, sem, c).Fault?
    ensures PushdownMove(edges, Ids(m, ids, c), StepEvent(m, sem, c), Ids(m, ids, Step(m, sem, c)))
  {
    StepIsInstr(m, sem, c);
    var fr := Top(c);
    var i := BlockOf(m, fr).body[fr.pc];
    if i.Call? && m[i.callee].blocks != [] {
      assert IsBlock(m, i.callee, 0);
      SiteIsListed(m, ids, edges, sites, Site(fr.fn, fr.block, true, fr.pc));
    }
    hide Step, WellFormed, Exports, ExecProbe;
    var st, c' := Ids(m, ids, c), Step(m, sem, c);
    var next := Replace(c.stack, fr.(pc := fr.pc + 1));
    assert c'.stack[..|c.stack|] == next;
    assert IdStack(ids, next) == st;
    if |c'.stack| == |c.stack| {
      assert c'.stack == next;
    } else {
      assert Ids(m, ids, c')[..|st|] == st;
    }
  }

  lemma TermIsMove<S>(
    m: Module, ids: map<BlockRef, nat>, edges: seq<ExportedEdge>, sites: seq<Site>, sem: Sem<S>, c: Config<S>)
    requires WellFormed(m) && AllNumbered(m, ids) && Exports(m, ids, edges, sites) && Valid(m, c)
    requires c.Running? && Top(c).pc == |BlockOf(m, Top(c)).body|
    ensures PushdownMove(edges, Ids(m, ids, c), StepEvent(m, sem, c), Ids(m, ids, Step(m, sem, c)))
  {
    StepIsTerm(m, sem, c);
    var fr := Top(c);
    var blk := BlockOf(m, fr);
    var st, c' := Ids(m, ids, c), Step(m, sem, c);
    if blk.succs != [] {
      var i := Pick(sem.branch(blk.term, c.data), |blk.succs|);
      ClosedFunction(m, fr.fn);
      assert IsBlock(m, fr.fn, blk.succs[i]);
      SiteIsListed(m, ids, edges, sites, Site(fr.fn, fr.block, false, i));
      hide Step, WellFormed, Exports;
      assert Ids(m, ids, c')[..|st| - 1] == st[..|st| - 1];
    } else {
      hide Step, WellFormed, Exports;
      assert Ids(m, ids, c') == st[..|st| - 1];
    }
  }

  /** The stacks of the first n + 1 configurations of a run. */
  ghost function IdStacks<S>(
    m: Module, ids: map<BlockRef, nat>, sem: Sem<S>, c: Config<S>, n: nat): (r: seq<seq<nat>>)
    requires WellFormed(m) && AllNumbered(m, ids) && Valid(m, c)
    ensures |r| == n + 1
  {
    (if n == 0 then [] else IdStacks(m, ids, sem, c, n - 1)) + [Ids(m, ids, Run(m, sem, c, n))]
  }

  /** The events of the first n steps, step by step. */
  ghost function Entries<S>(m: Module, sem: Sem<S>, c: Config<S>, n: nat): (r: seq<seq<Event>>)
    requires WellFormed(m) && Valid(m, c)
    ensures |r| == n
  {
    if n == 0 then [] else Entries(m, sem, c, n - 1) + [StepEvent(m, sem, Run(m, sem, c, n - 1))]
  }

  predicate Accepts(edges: seq<ExportedEdge>, stacks: seq<seq<nat>>, entries: seq<seq<Event>>)
    requires |stacks| == |entries| + 1
  {
    forall i :: 0 <= i < |entries| ==> PushdownMove(edges, stacks[i], entries[i], stacks[i + 1])
  }

  /** Main result: with every block numbered, the exported edges accept every run; each block entry
      goes along an exported edge from the block on top of the stack. */
  lemma {:induction false} EveryRunIsAccepted<S>(
    m: Module, ids: map<BlockRef, nat>, edges: seq<ExportedEdge>, sites: seq<Site>,
    sem: Sem<S>, c: Config<S>, n: nat)
    requires WellFormed(m) && AllNumbered(m, ids) && Exports(m, ids, edges, sites) && Valid(m, c)
    requires !Run(m, sem, c, n).Fault?
    ensures Accepts(edges, IdStacks(m, ids, sem, c, n), Entries(m, sem, c, n))
    ensures IdStacks(m, ids, sem, c, n)[n] == Ids(m, ids, Run(m, sem, c, n))
  {
    hide Step, StepEvent, PushdownMove, WellFormed, Exports, Ids;
    if n > 0 {
      FaultStays(m, sem, c, n - 1);
      EveryRunIsAccepted(m, ids, edges, sites, sem, c, n - 1);
      StepIsPushdownMove(m, ids, edges, sites, sem, Run(m, sem, c, n - 1));
    }
  }

  lemma FaultStays<S>(m: Module, sem: Sem<S>, c: Config<S>, n: nat)
    requires WellFormed(m) && Valid(m, c)
    ensures Run(m, sem, c, n).Fault? ==> Run(m, sem, c, n + 1).Fault?
  {
  }

  /** So after ALL the edge list describes every run. */
  lemma AllSelectionAccepts<S>(
    m: Module, ids: map<BlockRef, nat>, edges: seq<ExportedEdge>, sites: seq<Site>,
    sem: Sem<S>, c: Config<S>, n: nat)
    requires WellFormed(m) && BlockIds.Records(m, BlockIds.All, ids) && Exports(m, ids, edges, sites)
    requires Valid(m, c) && !Run(m, sem, c, n).Fault?
    ensures AllNumbered(m, ids)
    ensures Accepts(edges, IdStacks(m, ids, sem, c, n), Entries(m, sem, c, n))
  {
    BlockIds.RecordsMeans(m, BlockIds.All, ids);
    assert AllNumbered(m, ids);
    hide *;
    EveryRunIsAccepted(m, ids, edges, sites, sem, c, n);
  }

  /** Under any numbering an edge is listed if and only if the module has it between numbered ends:
      jumps from a block to a successor, indirect ones from a block to the entry of a function it calls. */
  lemma ListedIff(m: Module, ids: map<BlockRef, nat>, edges: seq<ExportedEdge>, x: nat, y: nat)
    requires EdgesOf(m, ids, edges)
    ensures ExportedEdge(x, y, Jmp) in edges <==> exists f: nat, b: nat, i: nat :: JumpsTo(m, ids, f, b, i, x, y)
    ensures ExportedEdge(x, y, Indirect) in edges <==> exists f: nat, b: nat, i: nat :: CallsTo(m, ids, f, b, i, x, y)
  {
    hide *;
    ListedIsEdge(m, ids, edges, x, y);
    forall f: nat, b: nat, i: nat | JumpsTo(m, ids, f, b, i, x, y)
      ensures ExportedEdge(x, y, Jmp) in edges
    {
      JumpIsSite(m, ids, f, b, i, x, y);
      SiteInList(m, ids, edges, Site(f, b, false, i));
    }
    forall f: nat, b: nat, i: nat | CallsTo(m, ids, f, b, i, x, y)
      ensures ExportedEdge(x, y, Indirect) in edges
    {
      CallIsSite(m, ids, f, b, i, x, y);
      SiteInList(m, ids, edges, Site(f, b, true, i));
    }
  }

  lemma SiteInList(m: Module, ids: map<BlockRef, nat>, edges: seq<ExportedEdge>, s: Site)
    requires EdgesOf(m, ids, edges) && IsExported(m, ids, s)
    ensures Label(m, ids, s) in edges
  {
    var sites :| Exports(m, ids, edges, sites);
    hide *;
    SiteIsListed(m, ids, edges, sites, s);
  }

  lemma ListedIsEdge(m: Module, ids: map<BlockRef, nat>, edges: seq<ExportedEdge>, x: nat, y: nat)
    requires EdgesOf(m, ids, edges)
    ensures ExportedEdge(x, y, Jmp) in edges ==> exists f: nat, b: nat, i: nat :: JumpsTo(m, ids, f, b, i, x, y)
    ensures ExportedEdge(x, y, Indirect) in edges ==> exists f: nat, b: nat, i: nat :: CallsTo(m, ids, f, b, i, x, y)
  {
    hide *;
    if ExportedEdge(x, y, Jmp) in edges {
      var s := ListedSite(m, ids, edges, ExportedEdge(x, y, Jmp));
    }
    if ExportedEdge(x, y, Indirect) in edges {
      var s := ListedSite(m, ids, edges, ExportedEdge(x, y, Indirect));
    }
  }

  lemma ListedSite(m: Module, ids: map<BlockRef, nat>, edges: seq<ExportedEdge>, e: ExportedEdge) returns (s: Site)
    requires EdgesOf(m, ids, edges) && e in edges
    ensures e.kind.Jmp? ==> JumpsTo(m, ids, s.fn, s.block, s.index, e.from, e.to)
    ensures e.kind.Indirect? ==> CallsTo(m, ids, s.fn, s.block, s.index, e.from, e.to)
  {
    var sites :| Exports(m, ids, edges, sites);
    hide Exports, JumpsTo, CallsTo, IsExported, Label;
    s := SiteOf(m, ids, edges, sites, e);
    SiteIsEdge(m, ids, s);
  }

  lemma SiteIsEdge(m: Module, ids: map<BlockRef, nat>, s: Site)
    requires IsExported(m, ids, s)
    ensures Label(m, ids, s).kind.Jmp? ==>
              JumpsTo(m, ids, s.fn, s.block, s.index, Label(m, ids, s).from, Label(m, ids, s).to)
    ensures Label(m, ids, s).kind.Indirect? ==>
              CallsTo(m, ids, s.fn, s.block, s.index, Label(m, ids, s).from, Label(m, ids, s).to)
  {
  }

  lemma JumpIsSite(m: Module, ids: map<BlockRef, nat>, f: nat, b: nat, i: nat, x: nat, y: nat)
    requires JumpsTo(m, ids, f, b, i, x, y)
    ensures IsExported(m, ids, Site(f, b, false, i))
    ensures Label(m, ids, Site(f, b, false, i)) == ExportedEdge(x, y, Jmp)
  {
  }

  lemma CallIsSite(m: Module, ids: map<BlockRef, nat>, f: nat, b: nat, i: nat, x: nat, y: nat)
    requires CallsTo(m, ids, f, b, i, x, y)
    ensures IsExported(m, ids, Site(f, b, true, i))
    ensures Label(m, ids, Site(f, b, true, i)) == ExportedEdge(x, y, Indirect)
  {
  }

  lemma SiteOf(m: Module, ids: map<BlockRef, nat>, edges: seq<ExportedEdge>, sites: seq<Site>, e: ExportedEdge)
    returns (s: Site)
    requires Exports(m, ids, edges, sites) && e in edges
    ensures IsExported(m, ids, s) && Label(m, ids, s) == e
  {
    var k :| 0 <= k < |edges| && edges[k] == e;
    s := sites[k];
  }

  /** The i-th successor of block b of function f; both are numbered. */
  predicate JumpsTo(m: Module, ids: map<BlockRef, nat>, f: nat, b: nat, i: nat, x: nat, y: nat)
  {
    && f < |m| && b < |m[f].blocks| && i < |m[f].blocks[b].succs|
    && BlockRef(f, b) in ids && ids[BlockRef(f, b)] == x
    && BlockRef(f, m[f].blocks[b].succs[i]) in ids && ids[BlockRef(f, m[f].blocks[b].succs[i])] == y
  }

  /** The call at the i-th instruction of that block to a function with a body. */
  predicate CallsTo(m: Module, ids: map<BlockRef, nat>, f: nat, b: nat, i: nat, x: nat, y: nat)
  {
    && f < |m| && b < |m[f].blocks| && i < |m[f].blocks[b].body| && m[f].blocks[b].body[i].Call?
    && var callee := m[f].blocks[b].body[i].callee;
    && callee < |m| && m[callee].blocks != []
    && BlockRef(f, b) in ids && ids[BlockRef(f, b)] == x
    && BlockRef(callee, 0) in ids && ids[BlockRef(callee, 0)] == y
  }
}
