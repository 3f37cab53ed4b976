/** What the bitmap is for: with splitting, NO_MULTIPLE_PRED and NODE, equal bitmaps of two completed
    runs, none of whose counters has overflowed, mean equal counts at every edge of the original. */
module NodeCounts {
  import opened Bits
  import opened Ir
  import opened SplitEdges
  import opened BlockIds
  import opened PathRecovery
  import opened EdgeCounts
  import BitmapPass

  /** The IDs of the blocks entered by the original part of n steps of the instrumented program. */
  ghost function Recorded<S>(
    m: Module, o: BitmapPass.Options, sem: Sem<S>, main: nat, data: S, mem0: Mem, n: nat): seq<nat>
    requires WellFormed(m) && WellFormed(o.Module(m))
    requires Valid(m, Start(main, data, mem0)) && Valid(o.Module(m), Start(main, data, mem0))
  {
    BitmapPass.EntryIds(m, o.ids, sem, main, data, mem0,
                        BitmapPass.RealSteps(m, o, sem, Start(main, data, mem0), n))
  }

  /** Every counter still holds its initial value plus its hits. */
  ghost predicate NoOverflow(o: BitmapPass.Options, mem0: Mem, es: seq<nat>)
    requires BitmapPass.Fits(o, mem0) && o.meth.Node?
  {
    forall v :: v in o.ids.Values ==> mem0.area[v] + BitmapPass.Hits(o.meth, mem0.prev, es, v) <= 255
  }

  lemma CountedIsSum(upd: BitmapPass.Update, init: nat, n: nat)
    requires init + n <= 255
    ensures BitmapPass.Counted(upd, init, n) == init + n
  {
  }

  lemma NodeHits(prev: nat, es: seq<nat>, v: nat)
    ensures BitmapPass.Hits(BitmapPass.Node, prev, es, v) == multiset(es)[v]
  {
    assert BitmapPass.Locations(BitmapPass.Node, prev, es) == es;
  }

  /** With distinct numbers, the number of a block is recorded as often as the block is entered. */
  lemma {:induction false} RecordCountsEntries(ids: map<BlockRef, nat>, t: seq<Event>, r: BlockRef)
    requires Injective(ids) && r in ids
    ensures multiset(IdTrace(ids, t))[ids[r]] == Entries(t, r)
  {
    if t != [] {
      var e := t[|t| - 1];
      RecordCountsEntries(ids, t[..|t| - 1], r);
      assert e.at in ids && e.at != r ==> ids[e.at] != ids[r];
    }
  }

  /** The instrumented program halts after n steps. */
  ghost predicate Halts<S>(
    m: Module, o: BitmapPass.Options, sem: Sem<S>, main: nat, data: S, mem0: Mem, n: nat)
  {
    && o.meth.Node? && BitmapPass.Fits(o, mem0)
    && WellFormed(m) && WellFormed(o.Module(m))
    && Valid(m, Start(main, data, mem0)) && Valid(o.Module(m), Start(main, data, mem0))
    && Run(o.Module(m), sem, Start(main, data, mem0), n).Halted?
  }

  /** And no counter has overflowed. */
  ghost predicate Completes<S>(
    m: Module, o: BitmapPass.Options, sem: Sem<S>, main: nat, data: S, mem0: Mem, n: nat)
  {
    && Halts(m, o, sem, main, data, mem0, n)
    && NoOverflow(o, mem0, Recorded(m, o, sem, main, data, mem0, n))
  }

  /** The bitmap it leaves. */
  ghost function FinalMap<S>(
    m: Module, o: BitmapPass.Options, sem: Sem<S>, main: nat, data: S, mem0: Mem, n: nat): seq<Byte>
    requires Halts(m, o, sem, main, data, mem0, n)
  {
    Run(o.Module(m), sem, Start(main, data, mem0), n).mem.area
  }

  /** A completed instrumented run, seen from the program without the inserted code. */
  lemma CompletedRecord<S>(
    m: Module, o: BitmapPass.Options, sem: Sem<S>, main: nat, data: S, mem0: Mem, n: nat) returns (j: nat)
    requires Plain(m) && IsBlock(m, main, 0) && Injective(o.ids)
    requires Completes(m, o, sem, main, data, mem0, n)
    ensures WellFormed(m) && Valid(m, Start(main, data, mem0))
    ensures Run(m, sem, Start(main, data, mem0), j).Halted?
    ensures var area := FinalMap(m, o, sem, main, data, mem0, n);
            && |area| == |mem0.area|
            && forall r :: r in o.ids ==>
                 && o.ids[r] < |area|
                 && area[o.ids[r]] == mem0.area[o.ids[r]] +
                    Entries([Enter(BlockRef(main, 0), AtStart)], r) +
                    Entries(Trace(m, sem, Start(main, data, mem0), j), r)
  {
    j := BitmapPass.RealSteps(m, o, sem, Start(main, data, mem0), n);
    BitmapPass.InstrumentedRunIsFaithful(m, o, sem, main, data, mem0, n);
    var c', es := Run(o.Module(m), sem, Start(main, data, mem0), n), Recorded(m, o, sem, main, data, mem0, n);
    assert BitmapPass.Agrees(o, mem0, es, c'.mem);
    var first, rest := [Enter(BlockRef(main, 0), AtStart)], Trace(m, sem, Start(main, data, mem0), j);
    assert es == IdTrace(o.ids, first) + IdTrace(o.ids, rest);
    hide Step, StepEvent, Run, Trace, WellFormed, Plain, Valid, IdTrace, Entries, BitmapPass.Hits,
      BitmapPass.Counted, Recorded, BitmapPass.RealSteps;
    forall r | r in o.ids
      ensures o.ids[r] < |c'.mem.area|
      ensures c'.mem.area[o.ids[r]] == mem0.area[o.ids[r]] + Entries(first, r) + Entries(rest, r)
    {
      var v := o.ids[r];
      assert v in o.ids.Values && BitmapPass.Location(o.meth, mem0.prev, v) == v;
      NodeHits(mem0.prev, es, v);
      CountedIsSum(o.upd, mem0.area[v], BitmapPass.Hits(o.meth, mem0.prev, es, v));
      RecordCountsEntries(o.ids, first, r);
      RecordCountsEntries(o.ids, rest, r);
    }
  }

  /** Main result, end to end: split, number the blocks of in-degree below two with distinct numbers,
      instrument with NODE under any update method, and run to completion on two inputs from the same
      bitmap. If the final bitmaps are equal and no counter has overflowed, the original program takes
      every edge equally often on both inputs. */
  lemma BitmapGivesEdgeCounts<S, T>(
    m: Module, m': Module, origins: seq<seq<Edge>>, o: BitmapPass.Options, main: nat, mem0: Mem,
    sem: Sem<S>, data: S, n: nat, sem': Sem<T>, data': T, n': nat)
    returns (j: nat, j': nat)
    requires WellFormed(m) && Plain(m) && IsBlock(m, main, 0) && EntriesHaveNoPreds(m)
    requires IsSplitModule(m, m', origins) && WellFormed(m') && Covers(m', o.ids) && Injective(o.ids)
    requires Completes(m', o, sem, main, data, mem0, n) && Completes(m', o, sem', main, data', mem0, n')
    requires FinalMap(m', o, sem, main, data, mem0, n) == FinalMap(m', o, sem', main, data', mem0, n')
    ensures Valid(m, Start(main, data, mem0)) && Valid(m, Start(main, data', mem0))
    ensures Run(m, sem, Start(main, data, mem0), j).Halted? && Run(m, sem', Start(main, data', mem0), j').Halted?
    ensures forall f :: 0 <= f < |m| ==>
              Taken(Trace(m, sem, Start(main, data, mem0), j), f) ==
              Taken(Trace(m, sem', Start(main, data', mem0), j'), f)
  {
    hide *;
    StartsInSplit(m, m', origins, main);
    SplitModulePlain(m, m', origins);
    var i := CompletedRecord(m', o, sem, main, data, mem0, n);
    var i' := CompletedRecord(m', o, sem', main, data', mem0, n');
    var t, t' := Trace(m', sem, Start(main, data, mem0), i), Trace(m', sem', Start(main, data', mem0), i');
    CountsFromEntries(o.ids, t, t');
    j, j' := EntryCountsGiveOriginalEdgeCounts(m, m', origins, o.ids, main, mem0, sem, data, i, sem', data', mem0, i');
  }

  lemma CountsFromEntries(ids: map<BlockRef, nat>, t: seq<Event>, t': seq<Event>)
    requires forall r :: r in ids ==> Entries(t, r) == Entries(t', r)
    ensures SameRecordedCounts(ids, t, t')
  {
  }

  // ----- saturation can be seen -----

  /** No numbered counter stands at 255. */
  ghost predicate NotSaturated(o: BitmapPass.Options, area: seq<Byte>)
  {
    forall v :: v in o.ids.Values ==> v < |area| && area[v] < 255
  }

  lemma CappedBelow(init: Byte, n: nat)
    ensures BitmapPass.Counted(BitmapPass.CapFF, init, n) < 255 <==> init + n < 255
  {
  }

  /** Under CAP_FF the final bitmap itself says that no counter has overflowed. */
  lemma NotSaturatedCompletes<S>(
    m: Module, o: BitmapPass.Options, sem: Sem<S>, main: nat, data: S, mem0: Mem, n: nat)
    requires Plain(m) && IsBlock(m, main, 0) && Halts(m, o, sem, main, data, mem0, n) && o.upd.CapFF?
    ensures var es := Recorded(m, o, sem, main, data, mem0, n);
            NotSaturated(o, FinalMap(m, o, sem, main, data, mem0, n)) <==>
            forall v :: v in o.ids.Values ==> mem0.area[v] + BitmapPass.Hits(o.meth, mem0.prev, es, v) < 255
    ensures NotSaturated(o, FinalMap(m, o, sem, main, data, mem0, n)) ==> Completes(m, o, sem, main, data, mem0, n)
  {
    BitmapPass.InstrumentedRunIsFaithful(m, o, sem, main, data, mem0, n);
    var c', es := Run(o.Module(m), sem, Start(main, data, mem0), n), Recorded(m, o, sem, main, data, mem0, n);
    assert BitmapPass.Agrees(o, mem0, es, c'.mem);
    hide Step, StepEvent, Run, Trace, WellFormed, Plain, Valid, IdTrace, BitmapPass.Hits,
      BitmapPass.Counted, Recorded, BitmapPass.RealSteps;
    forall v | v in o.ids.Values
      ensures v < |c'.mem.area|
      ensures c'.mem.area[v] < 255 <==> mem0.area[v] + BitmapPass.Hits(o.meth, mem0.prev, es, v) < 255
    {
      assert BitmapPass.Location(o.meth, mem0.prev, v) == v;
      CappedBelow(mem0.area[v], BitmapPass.Hits(o.meth, mem0.prev, es, v));
    }
  }

  /** The main result from what can be observed: under CAP_FF, equal final bitmaps in which no counter
      stands at 255 mean equal counts at every edge of the original. */
  lemma CappedBitmapGivesEdgeCounts<S, T>(
    m: Module, m': Module, origins: seq<seq<Edge>>, o: BitmapPass.Options, main: nat, mem0: Mem,
    sem: Sem<S>, data: S, n: nat, sem': Sem<T>, data': T, n': nat)
    returns (j: nat, j': nat)
    requires WellFormed(m) && Plain(m) && IsBlock(m, main, 0) && EntriesHaveNoPreds(m)
    requires IsSplitModule(m, m', origins) && WellFormed(m') && Covers(m', o.ids) && Injective(o.ids) && o.upd.CapFF?
    requires Halts(m', o, sem, main, data, mem0, n) && Halts(m', o, sem', main, data', mem0, n')
    requires FinalMap(m', o, sem, main, data, mem0, n) == FinalMap(m', o, sem', main, data', mem0, n')
    requires NotSaturated(o, FinalMap(m', o, sem, main, data, mem0, n))
    ensures Valid(m, Start(main, data, mem0)) && Valid(m, Start(main, data', mem0))
    ensures Run(m, sem, Start(main, data, mem0), j).Halted? && Run(m, sem', Start(main, data', mem0), j').Halted?
    ensures forall f :: 0 <= f < |m| ==>
              Taken(Trace(m, sem, Start(main, data, mem0), j), f) ==
              Taken(Trace(m, sem', Start(main, data', mem0), j'), f)
  {
    hide *;
    StartsInSplit(m, m', origins, main);
    SplitModulePlain(m, m', origins);
    NotSaturatedCompletes(m', o, sem, main, data, mem0, n);
    NotSaturatedCompletes(m', o, sem', main, data', mem0, n');
    j, j' := BitmapGivesEdgeCounts(m, m', origins, o, main, mem0, sem, data, n, sem', data', n');
  }
}
