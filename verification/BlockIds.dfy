/** The block-ID assigner: optional path splitting, selection and numbering of blocks. */
module BlockIds {
  import opened Ir
  import opened Prelude
  import opened SplitEdges

  datatype Selection = All | NoMultiplePred

  /** RANDOM reads its map size from the environment, where it may be missing. */
  datatype Generation = Sequential | Random(mapSize: Option<int>) | UnknownGeneration

  datatype Outcome = Assigned(ids: map<BlockRef, nat>) | FatalError

  predicate Selected(m: Module, sel: Selection, r: BlockRef)
  {
    IsBlock(m, r.fn, r.block) && (sel.All? || !TwoPreds(m[r.fn].blocks, r.block))
  }

  /** Layout order: functions in module order, blocks in function order. */
  predicate Before(r: BlockRef, s: BlockRef)
  {
    r.fn < s.fn || (r.fn == s.fn && r.block < s.block)
  }

  predicate Rejected(gen: Generation)
  {
    gen.UnknownGeneration? || (gen.Random? && (gen.mapSize.None? || gen.mapSize.value < 1))
  }

  /** The numbering given to the selected blocks. */
  ghost predicate Numbers(ids: map<BlockRef, nat>, gen: Generation)
  {
    match gen
    case Sequential =>
      && (forall r :: r in ids ==> ids[r] < |ids|)
      && (forall r, s :: r in ids && s in ids && Before(r, s) ==> ids[r] < ids[s])
    case Random(size) => size.Some? && forall r :: r in ids ==> ids[r] < size.value
    case UnknownGeneration => false
  }

  lemma NumberOneMore(ids: map<BlockRef, nat>, gen: Generation, r: BlockRef, v: nat)
    requires Numbers(ids, gen) && forall s :: s in ids ==> Before(s, r)
    requires if gen.Sequential? then v == |ids| else v < gen.mapSize.value
    ensures r !in ids && |ids[r := v]| == |ids| + 1
    ensures Numbers(ids[r := v], gen)
  {
    assert ids[r := v].Keys == ids.Keys + {r};
  }

  /** The numbered blocks are exactly the selected ones. */
  ghost predicate Records(m: Module, sel: Selection, ids: map<BlockRef, nat>)
  {
    forall r :: r in ids <==> Selected(m, sel, r)
  }

  /** The numbered blocks are exactly the selected ones before block b of function f. */
  ghost predicate RecordsUpTo(m: Module, sel: Selection, ids: map<BlockRef, nat>, f: nat, b: nat)
  {
    forall r :: r in ids <==> Selected(m, sel, r) && Before(r, BlockRef(f, b))
  }

  lemma RecordsAdvance(m: Module, sel: Selection, ids: map<BlockRef, nat>, f: nat, b: nat, v: nat)
    requires RecordsUpTo(m, sel, ids, f, b)
    ensures forall r :: r in ids ==> Before(r, BlockRef(f, b))
    ensures RecordsUpTo(m, sel, if Selected(m, sel, BlockRef(f, b)) then ids[BlockRef(f, b) := v] else ids,
                        f, b + 1)
  {
    hide Selected;
    var r0 := BlockRef(f, b);
    var ids' := if Selected(m, sel, r0) then ids[r0 := v] else ids;
    forall r
      ensures r in ids' <==> Selected(m, sel, r) && Before(r, BlockRef(f, b + 1))
    {
      assert Before(r, BlockRef(f, b + 1)) <==> Before(r, r0) || r == r0;
    }
  }

  lemma RecordsNextFunction(m: Module, sel: Selection, ids: map<BlockRef, nat>, f: nat)
    requires f < |m| && RecordsUpTo(m, sel, ids, f, |m[f].blocks|)
    ensures RecordsUpTo(m, sel, ids, f + 1, 0)
  {
  }

  lemma RecordsAtEnd(m: Module, sel: Selection, ids: map<BlockRef, nat>)
    requires RecordsUpTo(m, sel, ids, |m|, 0)
    ensures Records(m, sel, ids)
  {
  }

  /** What the two selectors mean: every block, respectively every block of in-degree below two. */
  lemma RecordsMeans(m: Module, sel: Selection, ids: map<BlockRef, nat>)
    requires Records(m, sel, ids)
    ensures sel.All? ==> forall f: nat, b: nat :: BlockRef(f, b) in ids <==> f < |m| && b < |m[f].blocks|
    ensures sel.NoMultiplePred? ==> forall f: nat, b: nat ::
              BlockRef(f, b) in ids <==> f < |m| && b < |m[f].blocks| && |InEdges(m[f].blocks, b)| < 2
  {
    hide TwoPreds, InEdges;
    forall f: nat, b: nat | f < |m| && b < |m[f].blocks|
      ensures TwoPreds(m[f].blocks, b) <==> |InEdges(m[f].blocks, b)| >= 2
    {
      TwoPredsIsInDegree(m[f].blocks, b);
    }
  }

  /** The assignment loop; RANDOM draws any number below the map size. */
  method NumberBlocks(m: Module, sel: Selection, gen: Generation) returns (ids: map<BlockRef, nat>)
    requires !Rejected(gen)
    ensures Records(m, sel, ids) && Numbers(ids, gen)
    ensures sel.All? ==> forall f: nat, b: nat :: BlockRef(f, b) in ids <==> f < |m| && b < |m[f].blocks|
    ensures sel.NoMultiplePred? ==> forall f: nat, b: nat ::
              BlockRef(f, b) in ids <==> f < |m| && b < |m[f].blocks| && |InEdges(m[f].blocks, b)| < 2
  {
    var id: nat := 0;
    ids := map[];
    hide TwoPreds;
    for f := 0 to |m|
      invariant RecordsUpTo(m, sel, ids, f, 0)
      invariant gen.Sequential? ==> id == |ids|
      invariant Numbers(ids, gen)
    {
      hide *;
      for b := 0 to |m[f].blocks|
        invariant RecordsUpTo(m, sel, ids, f, b)
        invariant gen.Sequential? ==> id == |ids|
        invariant Numbers(ids, gen)
      {
        var r := BlockRef(f, b);
        if Selected(m, sel, r) {
          var drawn: nat;
          if gen.Sequential? {
            drawn := id;
            id := id + 1;
          } else {
            drawn := RandomBelow(gen);
          }
          RecordsAdvance(m, sel, ids, f, b, drawn);
          NumberOneMore(ids, gen, r, drawn);
          ids := ids[r := drawn];
        } else {
          RecordsAdvance(m, sel, ids, f, b, 0);
        }
      }
      RecordsNextFunction(m, sel, ids, f);
    }
    RecordsAtEnd(m, sel, ids);
    RecordsMeans(m, sel, ids);
  }

  method RandomBelow(gen: Generation) returns (v: nat)
    requires gen.Random? && !Rejected(gen)
    ensures v < gen.mapSize.value
  {
    v :| v < gen.mapSize.value;
  }

  /** The whole analysis. Exactly a missing or non-positive map size under RANDOM and an unknown strategy
      abort; otherwise ALL numbers every block of the module, split or not, and NO_MULTIPLE_PRED the
      blocks of in-degree below two. */
  method AssignIds(m: IrModule, split: bool, sel: Selection, gen: Generation)
    returns (res: Outcome, ghost origins: seq<seq<Edge>>)
    requires WellFormed(m.functions)
    modifies m
    ensures if split then IsSplitModule(old(m.functions), m.functions, origins)
            else m.functions == old(m.functions)
    ensures res.FatalError? <==>
            gen.UnknownGeneration? || (gen.Random? && (gen.mapSize == None || gen.mapSize.value <= 0))
    ensures res.Assigned? ==> Records(m.functions, sel, res.ids) && Numbers(res.ids, gen)
    ensures res.Assigned? && gen.Random? ==> forall r :: r in res.ids ==> res.ids[r] < gen.mapSize.value
    ensures res.Assigned? && sel.All? ==> forall f: nat, b: nat ::
              BlockRef(f, b) in res.ids <==> f < |m.functions| && b < |m.functions[f].blocks|
    ensures res.Assigned? && sel.NoMultiplePred? ==> forall f: nat, b: nat ::
              BlockRef(f, b) in res.ids <==>
              && f < |m.functions| && b < |m.functions[f].blocks|
              && |InEdges(m.functions[f].blocks, b)| < 2
  {
    origins := [];
    if split {
      origins := m.SplitModule();
    }
    if Rejected(gen) {
      res := FatalError;
    } else {
      var ids := NumberBlocks(m.functions, sel, gen);
      res := Assigned(ids);
    }
  }

  ghost predicate Injective(ids: map<BlockRef, nat>)
  {
    forall r, s :: r in ids && s in ids && ids[r] == ids[s] ==> r == s
  }

  function Range(n: nat): (r: set<nat>)
    ensures |r| == n
    ensures forall v: nat :: v in r <==> v < n
  {
    if n == 0 then {} else Range(n - 1) + {n - 1}
  }

  /** Sequential numbering is a bijection onto 0 .. |ids|. */
  lemma SequentialIsBijective(ids: map<BlockRef, nat>)
    requires Numbers(ids, Sequential)
    ensures Injective(ids)
    ensures ids.Values == Range(|ids|)
  {
    forall r, s | r in ids && s in ids && ids[r] == ids[s]
      ensures r == s
    {
      assert Before(r, s) || Before(s, r) || r == s;
    }
    ImageSize(ids);
    SubsetOfSameSize(ids.Values, Range(|ids|));
  }

  lemma {:induction false} ImageSize(ids: map<BlockRef, nat>)
    requires Injective(ids)
    ensures |ids.Values| == |ids|
    decreases |ids|
  {
    if ids == map[] {
      assert ids.Values == {};
    } else {
      var k :| k in ids;
      var rest := ids - {k};
      assert rest.Keys == ids.Keys - {k};
      ImageSize(rest);
      assert forall r :: r in rest ==> r in ids && r != k && rest[r] == ids[r];
      assert forall r :: r in rest ==> ids[r] != ids[k];
      forall v
        ensures v in ids.Values <==> v in rest.Values + {ids[k]}
      {
        if v in ids.Values {
          var r :| r in ids && ids[r] == v;
          assert r != k ==> r in rest;
        }
      }
      assert ids.Values == rest.Values + {ids[k]};
    }
  }

  lemma SubsetOfSameSize<T>(a: set<T>, b: set<T>)
    requires a <= b && |a| == |b|
    ensures a == b
  {
    assert |b - a| == |b| - |a|;
  }

  // ----- what a run records -----

  /** The recorded IDs: entries into numbered blocks, in order. */
  function IdTrace(ids: map<BlockRef, nat>, t: seq<Event>): seq<nat>
  {
    if t == [] then []
    else
      var e := t[|t| - 1];
      IdTrace(ids, t[..|t| - 1]) + (if e.at in ids then [ids[e.at]] else [])
  }

  lemma IdTraceAppend(ids: map<BlockRef, nat>, s: seq<Event>, t: seq<Event>)
    requires |t| <= 1
    ensures IdTrace(ids, s + t) == IdTrace(ids, s) + IdTrace(ids, t)
  {
    if t == [] {
      assert s + t == s;
    } else {
      assert (s + t)[..|s + t| - 1] == s;
      assert t[..0] == [];
    }
  }

  lemma EventAtMostOne<S>(m: Module, sem: Sem<S>, c: Config<S>)
    requires WellFormed(m) && Valid(m, c)
    ensures |StepEvent(m, sem, c)| <= 1
  {
  }
}
