/** The bitmap pass: code inserted at the head of every numbered block, the proof that it
    leaves the program alone, and the closed form of what it counts. */
module BitmapPass {
  import opened Bits
  import opened BlockIds
  import opened Ir
  import opened Prelude
  import opened SplitEdges

  datatype Method = HashedEdge | Node
  datatype Update = Naive | AvoidZero | CapFF

  // ----- the inserted code -----

  function LocationCode(meth: Method, id: nat): seq<ProbeOp>
  {
    match meth
    case HashedEdge => [LoadPrev, StorePrev(id / 2), XorPrev(id)]
    case Node => [SetLocation(id)]
  }

  function UpdateCode(upd: Update): seq<ProbeOp>
  {
    match upd
    case Naive => [LoadCounter, AddOne, StoreCounter]
    case AvoidZero => [LoadCounter, AddOne, CarryIfZero, AddCarry, StoreCounter]
    case CapFF => [LoadCounter, CarryIfNotFF, AddCarry, StoreCounter]
  }

  function Probe(meth: Method, upd: Update, id: nat): seq<ProbeOp>
  {
    LocationCode(meth, id) + [IndexMap] + UpdateCode(upd)
  }

  function Emits(code: seq<ProbeOp>): (r: seq<Instr>)
    ensures |r| == |code| && forall i :: 0 <= i < |r| ==> r[i] == Emit(code[i])
  {
    seq(|code|, i requires 0 <= i < |code| => Emit(code[i]))
  }

  /** The pass options together with the numbering it works from. */
  datatype Options = Options(ids: map<BlockRef, nat>, meth: Method, upd: Update)
  {
    function ProbeAt(f: nat, b: nat): seq<ProbeOp>
    {
      if BlockRef(f, b) in ids then Probe(meth, upd, ids[BlockRef(f, b)]) else []
    }

    function Block(f: nat, b: nat, blk: Block): Block
    {
      blk.(body := Emits(ProbeAt(f, b)) + blk.body)
    }

    function Function(f: nat, fn: Func): Func
    {
      Func(seq(|fn.blocks|, b requires 0 <= b < |fn.blocks| => Block(f, b, fn.blocks[b])))
    }

    function Module(m: Module): (m': Module)
      ensures |m'| == |m|
    {
      seq(|m|, f requires 0 <= f < |m| => Function(f, m[f]))
    }
  }

  /** The insertion loop over the blocks of one function. */
  method InstrumentFunction(f: nat, fn: Func, o: Options) returns (r: Func)
    ensures r == o.Function(f, fn)
  {
    var blocks := fn.blocks;
    for b := 0 to |blocks|
      invariant |blocks| == |fn.blocks|
      invariant forall a :: 0 <= a < b ==> blocks[a] == o.Block(f, a, fn.blocks[a])
      invariant forall a :: b <= a < |blocks| ==> blocks[a] == fn.blocks[a]
    {
      if BlockRef(f, b) in o.ids {
        var code := Probe(o.meth, o.upd, o.ids[BlockRef(f, b)]);
        blocks := blocks[b := blocks[b].(body := Emits(code) + blocks[b].body)];
      } else {
        assert Emits([]) + blocks[b].body == blocks[b].body;
      }
    }
    r := Func(blocks);
  }

  /** The pass rewrites every function of the module in place. */
  method Instrument(m: IrModule, o: Options)
    modifies m
    ensures m.functions == o.Module(old(m.functions))
  {
    for f := 0 to |m.functions|
      invariant |m.functions| == |old(m.functions)|
      invariant forall g :: 0 <= g < f ==> m.functions[g] == o.Function(g, old(m.functions)[g])
      invariant forall g :: f <= g < |m.functions| ==> m.functions[g] == old(m.functions)[g]
    {
      var fn := InstrumentFunction(f, m.functions[f], o);
      m.functions := m.functions[f := fn];
    }
  }

  // ----- what is counted -----

  /** The counter touched on entry to the block numbered id. */
  function Location(meth: Method, prev: nat, id: nat): nat
  {
    if meth.HashedEdge? then Xor(prev, id) else id
  }

  /** The counters touched by a run that enters the blocks numbered es: one per consecutive
      pair for HASHED_EDGE, one per block for NODE. */
  function Locations(meth: Method, prev: nat, es: seq<nat>): seq<nat>
  {
    seq(|es|, i requires 0 <= i < |es| => Location(meth, if i == 0 then prev else es[i - 1] / 2, es[i]))
  }

  function Hits(meth: Method, prev: nat, es: seq<nat>, loc: nat): nat
  {
    multiset(Locations(meth, prev, es))[loc]
  }

  function PrevAfter(meth: Method, prev: nat, es: seq<nat>): nat
  {
    if meth.Node? || es == [] then prev else es[|es| - 1] / 2
  }

  /** The counter after n hits, starting from init. */
  function Counted(upd: Update, init: Byte, n: nat): Byte
  {
    match upd
    case Naive => (init + n) % 256
    case AvoidZero => if init + n == 0 then 0 else (init + n - 1) % 255 + 1
    case CapFF => if init + n < 255 then init + n else 255
  }

  /** The memory after entering the blocks numbered es, starting from mem0. */
  ghost predicate Agrees(o: Options, mem0: Mem, es: seq<nat>, mem: Mem)
  {
    && mem.prev == PrevAfter(o.meth, mem0.prev, es)
    && |mem.area| == |mem0.area|
    && forall l :: 0 <= l < |mem.area| ==>
         mem.area[l] == Counted(o.upd, mem0.area[l], Hits(o.meth, mem0.prev, es, l))
  }

  // ----- the inserted code does what it should -----

  function ExecProbes(ops: seq<ProbeOp>, mem: Mem): Option<Mem>
  {
    if ops == [] then Some(mem)
    else
      var r := ExecProbes(ops[..|ops| - 1], mem);
      if r.None? then None else ExecProbe(ops[|ops| - 1], r.value)
  }

  lemma {:induction false} ExecSplit(a: seq<ProbeOp>, b: seq<ProbeOp>, mem: Mem)
    ensures var r := ExecProbes(a, mem);
            ExecProbes(a + b, mem) == if r.None? then None else ExecProbes(b, r.value)
  {
    if b == [] {
      assert a + b == a;
    } else {
      assert (a + b)[..|a + b| - 1] == a + b[..|b| - 1];
      ExecSplit(a, b[..|b| - 1], mem);
    }
  }

  lemma ExecNothing()
    ensures forall mem :: ExecProbes([], mem) == Some(mem)
  {
  }

  lemma ExecCons(p: ProbeOp, b: seq<ProbeOp>, mem: Mem)
    ensures var r := ExecProbe(p, mem);
            ExecProbes([p] + b, mem) == if r.None? then None else ExecProbes(b, r.value)
  {
    ExecSplit([p], b, mem);
    assert [p][..0] == [];
  }

  function Bump(upd: Update, c: Byte): Byte
  {
    match upd
    case Naive => (c + 1) % 256
    case AvoidZero => if c == 255 then 1 else c + 1
    case CapFF => if c == 255 then 255 else c + 1
  }

  lemma LocationCodeWorks(meth: Method, id: nat, mem: Mem)
    ensures var r := ExecProbes(LocationCode(meth, id) + [IndexMap], mem);
            && r.Some? && r.value.area == mem.area
            && r.value.tmp.ptr == Location(meth, mem.prev, id)
            && r.value.prev == if meth.HashedEdge? then id / 2 else mem.prev
  {
    if meth.HashedEdge? {
      var m1 := ExecProbe(LoadPrev, mem).value;
      var m2 := ExecProbe(StorePrev(id / 2), m1).value;
      var m3 := ExecProbe(XorPrev(id), m2).value;
      assert LocationCode(meth, id) + [IndexMap] ==
             [LoadPrev] + ([StorePrev(id / 2)] + ([XorPrev(id)] + ([IndexMap] + [])));
      ExecCons(LoadPrev, [StorePrev(id / 2)] + ([XorPrev(id)] + ([IndexMap] + [])), mem);
      ExecCons(StorePrev(id / 2), [XorPrev(id)] + ([IndexMap] + []), m1);
      ExecCons(XorPrev(id), [IndexMap] + [], m2);
      ExecCons(IndexMap, [], m3);
    } else {
      assert LocationCode(meth, id) + [IndexMap] == [SetLocation(id)] + ([IndexMap] + []);
      ExecCons(SetLocation(id), [IndexMap] + [], mem);
      ExecCons(IndexMap, [], ExecProbe(SetLocation(id), mem).value);
    }
  }

  /** Loading and storing back the counter around a computation on the temporaries. */
  lemma UpdateFrame(ops: seq<ProbeOp>, mem: Mem)
    requires mem.tmp.ptr < |mem.area|
    requires var r := ExecProbes(ops, mem.(tmp := mem.tmp.(cnt := mem.area[mem.tmp.ptr])));
             r.Some? && r.value.area == mem.area && r.value.prev == mem.prev && r.value.tmp.ptr == mem.tmp.ptr
    ensures var c := ExecProbes(ops, mem.(tmp := mem.tmp.(cnt := mem.area[mem.tmp.ptr]))).value.tmp.cnt;
            var r := ExecProbes([LoadCounter] + ops + [StoreCounter], mem);
            r.Some? && r.value.prev == mem.prev && r.value.area == mem.area[mem.tmp.ptr := c]
  {
    var m1 := ExecProbe(LoadCounter, mem).value;
    ExecCons(LoadCounter, ops, mem);
    ExecSplit([LoadCounter] + ops, [StoreCounter], mem);
    var m2 := ExecProbes(ops, m1).value;
    ExecNothing();
    assert [StoreCounter] == [StoreCounter] + [];
    ExecCons(StoreCounter, [], m2);
  }

  function Arithmetic(upd: Update): seq<ProbeOp>
  {
    match upd
    case Naive => [AddOne]
    case AvoidZero => [AddOne] + ([CarryIfZero] + ([AddCarry] + []))
    case CapFF => [CarryIfNotFF] + ([AddCarry] + [])
  }

  lemma ArithmeticWorks(upd: Update, mem: Mem)
    ensures var r := ExecProbes(Arithmetic(upd), mem);
            && r.Some? && r.value.area == mem.area && r.value.prev == mem.prev
            && r.value.tmp.ptr == mem.tmp.ptr && r.value.tmp.cnt == Bump(upd, mem.tmp.cnt)
  {
    ExecNothing();
    hide ExecProbes;
    match upd
    case Naive =>
      assert [AddOne] == [AddOne] + [];
      ExecCons(AddOne, [], mem);
    case AvoidZero =>
      var m2 := ExecProbe(AddOne, mem).value;
      ExecCons(AddOne, [CarryIfZero] + ([AddCarry] + []), mem);
      ExecCons(CarryIfZero, [AddCarry] + [], m2);
      ExecCons(AddCarry, [], ExecProbe(CarryIfZero, m2).value);
    case CapFF =>
      ExecCons(CarryIfNotFF, [AddCarry] + [], mem);
      ExecCons(AddCarry, [], ExecProbe(CarryIfNotFF, mem).value);
  }

  lemma UpdateCodeWorks(upd: Update, mem: Mem)
    requires mem.tmp.ptr < |mem.area|
    ensures var r := ExecProbes(UpdateCode(upd), mem);
            && r.Some? && r.value.prev == mem.prev
            && r.value.area == mem.area[mem.tmp.ptr := Bump(upd, mem.area[mem.tmp.ptr])]
  {
    ArithmeticWorks(upd, mem.(tmp := mem.tmp.(cnt := mem.area[mem.tmp.ptr])));
    assert UpdateCode(upd) == [LoadCounter] + Arithmetic(upd) + [StoreCounter];
    hide ExecProbes;
    UpdateFrame(Arithmetic(upd), mem);
  }

  lemma NextModulo256(x: nat)
    ensures (x + 1) % 256 == (x % 256 + 1) % 256
  {
  }

  lemma NextModulo255(x: nat)
    ensures (x + 1) % 255 == if x % 255 == 254 then 0 else x % 255 + 1
  {
  }

  /** The closed form is the iterated update. */
  lemma CountedIsIteratedBump(upd: Update, init: Byte, n: nat)
    ensures Counted(upd, init, 0) == init
    ensures Counted(upd, init, n + 1) == Bump(upd, Counted(upd, init, n))
  {
    match upd
    case Naive => NextModulo256(init + n);
    case AvoidZero => if init + n > 0 { NextModulo255(init + n - 1); }
    case CapFF =>
  }

  lemma HitsStep(meth: Method, prev: nat, es: seq<nat>, id: nat, loc: nat)
    ensures Hits(meth, prev, es + [id], loc) ==
            Hits(meth, prev, es, loc) +
            (if loc == Location(meth, PrevAfter(meth, prev, es), id) then 1 else 0)
  {
    var last := Location(meth, if es == [] then prev else es[|es| - 1] / 2, id);
    assert last == Location(meth, PrevAfter(meth, prev, es), id);
    assert Locations(meth, prev, es + [id]) == Locations(meth, prev, es) + [last];
  }

  /** Every counter a program with these numbers can address is in the map: for NODE the numbers
      themselves, for HASHED_EDGE what they make with the initial location and with each other. */
  ghost predicate Fits(o: Options, mem0: Mem)
  {
    && (forall v :: v in o.ids.Values ==> Location(o.meth, mem0.prev, v) < |mem0.area|)
    && (forall u, v :: u in o.ids.Values && v in o.ids.Values ==> Location(o.meth, u / 2, v) < |mem0.area|)
  }

  /** All of them are numbers of blocks. */
  ghost predicate Known(o: Options, es: seq<nat>)
  {
    forall i :: 0 <= i < |es| ==> es[i] in o.ids.Values
  }

  lemma LocationInBounds(o: Options, mem0: Mem, es: seq<nat>, id: nat)
    requires Fits(o, mem0) && id in o.ids.Values && Known(o, es)
    ensures Location(o.meth, PrevAfter(o.meth, mem0.prev, es), id) < |mem0.area|
  {
    if es != [] {
      assert es[|es| - 1] in o.ids.Values;
    }
  }

  /** One more entry: the counter of its location is bumped, and the location becomes the previous. */
  lemma AgreesWithOneMore(o: Options, mem0: Mem, es: seq<nat>, id: nat, mem: Mem, mem': Mem)
    requires Agrees(o, mem0, es, mem)
    requires var loc := Location(o.meth, mem.prev, id);
             loc < |mem.area| && mem'.area == mem.area[loc := Bump(o.upd, mem.area[loc])]
    requires mem'.prev == if o.meth.HashedEdge? then id / 2 else mem.prev
    ensures Agrees(o, mem0, es + [id], mem')
  {
    assert mem'.prev == PrevAfter(o.meth, mem0.prev, es + [id]);
    hide Counted, Bump, Hits, Location;
    forall l | 0 <= l < |mem'.area|
      ensures mem'.area[l] == Counted(o.upd, mem0.area[l], Hits(o.meth, mem0.prev, es + [id], l))
    {
      HitsStep(o.meth, mem0.prev, es, id, l);
      CountedIsIteratedBump(o.upd, mem0.area[l], Hits(o.meth, mem0.prev, es, l));
    }
  }

  /** The whole inserted block moves the memory from one entry to the next. */
  lemma ProbeCounts(o: Options, mem0: Mem, es: seq<nat>, id: nat, mem: Mem)
    requires Fits(o, mem0) && id in o.ids.Values && Known(o, es)
    requires Agrees(o, mem0, es, mem)
    ensures ExecProbes(Probe(o.meth, o.upd, id), mem).Some?
    ensures Agrees(o, mem0, es + [id], ExecProbes(Probe(o.meth, o.upd, id), mem).value)
  {
    LocationInBounds(o, mem0, es, id);
    assert mem.prev == PrevAfter(o.meth, mem0.prev, es) && |mem.area| == |mem0.area|;
    var front := LocationCode(o.meth, id) + [IndexMap];
    assert Probe(o.meth, o.upd, id) == front + UpdateCode(o.upd);
    hide *;
    LocationCodeWorks(o.meth, id, mem);
    var m1 := ExecProbes(front, mem).value;
    UpdateCodeWorks(o.upd, m1);
    ExecSplit(front, UpdateCode(o.upd), mem);
    AgreesWithOneMore(o, mem0, es, id, mem, ExecProbes(UpdateCode(o.upd), m1).value);
  }

  /** The inserted block stays inside the map exactly when the location it computes does. */
  lemma ProbeStaysInMapIff(o: Options, id: nat, mem: Mem)
    ensures ExecProbes(Probe(o.meth, o.upd, id), mem).Some? <==> Location(o.meth, mem.prev, id) < |mem.area|
  {
    var front := LocationCode(o.meth, id) + [IndexMap];
    LocationCodeWorks(o.meth, id, mem);
    var m1 := ExecProbes(front, mem).value;
    ExecSplit(front, UpdateCode(o.upd), mem);
    hide ExecProbes, LocationCode, Location, Counted, Bump;
    if m1.tmp.ptr < |m1.area| {
      UpdateCodeWorks(o.upd, m1);
    } else {
      UpdateOutsideFaults(o.upd, m1);
    }
  }

  lemma UpdateOutsideFaults(upd: Update, mem: Mem)
    requires mem.tmp.ptr >= |mem.area|
    ensures ExecProbes(UpdateCode(upd), mem).None?
  {
    var code := UpdateCode(upd);
    assert code == [LoadCounter] + code[1..];
    hide ExecProbes, UpdateCode;
    ExecCons(LoadCounter, code[1..], mem);
  }

  lemma {:induction false} ExecPrefix(ops: seq<ProbeOp>, i: nat, mem: Mem)
    requires i < |ops| && ExecProbes(ops, mem).Some?
    ensures ExecProbes(ops[..i], mem).Some?
    ensures ExecProbe(ops[i], ExecProbes(ops[..i], mem).value) == ExecProbes(ops[..i + 1], mem)
    ensures ExecProbes(ops[..i + 1], mem).Some?
  {
    assert ops == ops[..i + 1] + ops[i + 1..];
    ExecSplit(ops[..i + 1], ops[i + 1..], mem);
    assert ops[..i + 1][..i] == ops[..i];
  }

  // ----- the instrumented program simulates the original -----

  lemma BlockShape(m: Module, o: Options, f: nat, b: nat)
    requires IsBlock(m, f, b)
    ensures IsBlock(o.Module(m), f, b)
    ensures var code, blk, blk' := o.ProbeAt(f, b), m[f].blocks[b], o.Module(m)[f].blocks[b];
            && blk'.term == blk.term && blk'.succs == blk.succs
            && |blk'.body| == |code| + |blk.body|
            && (forall i :: 0 <= i < |code| ==> blk'.body[i] == Emit(code[i]))
            && (forall i :: |code| <= i < |blk'.body| ==> blk'.body[i] == blk.body[i - |code|])
  {
  }

  lemma InstrumentedWellFormed(m: Module, o: Options)
    requires WellFormed(m)
    ensures WellFormed(o.Module(m))
  {
    var m' := o.Module(m);
    forall f | 0 <= f < |m'|
      ensures WellFormedBlocks(m', m'[f].blocks)
    {
      assert WellFormedBlocks(m, m[f].blocks);
      forall b | 0 <= b < |m'[f].blocks|
        ensures forall i | 0 <= i < |m'[f].blocks[b].succs| :: m'[f].blocks[b].succs[i] < |m'[f].blocks|
        ensures forall p | 0 <= p < |m'[f].blocks[b].body| ::
                  m'[f].blocks[b].body[p].Call? ==> m'[f].blocks[b].body[p].callee < |m'|
      {
        BlockShape(m, o, f, b);
      }
    }
  }

  function EraseFrame(o: Options, fr: Frame): Frame
  {
    var n := |o.ProbeAt(fr.fn, fr.block)|;
    fr.(pc := if fr.pc < n then 0 else fr.pc - n)
  }

  function EraseStack(o: Options, stack: seq<Frame>): (r: seq<Frame>)
    ensures |r| == |stack|
  {
    seq(|stack|, i requires 0 <= i < |stack| => EraseFrame(o, stack[i]))
  }

  /** Forget the inserted code, `__bitmap_prev_loc` and the bitmap. */
  function Erase<S>(o: Options, mem0: Mem, c: Config<S>): Config<S>
  {
    match c
    case Running(stack, data, _) => Running(EraseStack(o, stack), data, mem0)
    case Halted(data, _) => Halted(data, mem0)
    case Fault => Fault
  }

  /** The next step executes inserted code. */
  predicate InProbe<S>(o: Options, c: Config<S>)
  {
    c.Running? && |c.stack| > 0 && Top(c).pc < |o.ProbeAt(Top(c).fn, Top(c).block)|
  }

  lemma EraseValid<S>(m: Module, o: Options, mem0: Mem, c: Config<S>)
    requires Valid(o.Module(m), c)
    ensures Valid(m, Erase(o, mem0, c))
  {
    if c.Running? {
      forall i | 0 <= i < |c.stack|
        ensures ValidFrame(m, EraseStack(o, c.stack)[i])
      {
        BlockShape(m, o, c.stack[i].fn, c.stack[i].block);
      }
    }
  }

  lemma ProbeInstr<S>(m: Module, o: Options, c: Config<S>)
    requires Valid(o.Module(m), c) && InProbe(o, c)
    ensures Top(c).pc < |BlockOf(o.Module(m), Top(c)).body|
    ensures BlockOf(o.Module(m), Top(c)).body[Top(c).pc] == Emit(o.ProbeAt(Top(c).fn, Top(c).block)[Top(c).pc])
  {
    BlockShape(m, o, Top(c).fn, Top(c).block);
  }

  /** Inserted code changes only the memory. */
  lemma ProbeStep<S>(m: Module, o: Options, sem: Sem<S>, mem0: Mem, c: Config<S>)
    requires WellFormed(o.Module(m)) && Valid(o.Module(m), c) && InProbe(o, c)
    ensures StepEvent(o.Module(m), sem, c) == []
    ensures var r := ExecProbe(o.ProbeAt(Top(c).fn, Top(c).block)[Top(c).pc], c.mem);
            var c' := Step(o.Module(m), sem, c);
            if r.None? then c'.Fault?
            else && c' == Running(Replace(c.stack, Top(c).(pc := Top(c).pc + 1)), c.data, r.value)
                 && Erase(o, mem0, c') == Erase(o, mem0, c)
  {
    var fr := Top(c);
    ProbeInstr(m, o, c);
    StepIsInstr(o.Module(m), sem, c);
    hide Step, StepEvent, WellFormed, Valid, ExecProbe, Options.Module, Options.ProbeAt, BlockOf;
    EraseTop(o, c.stack, fr.(pc := fr.pc + 1));
    assert EraseFrame(o, fr.(pc := fr.pc + 1)) == EraseFrame(o, fr);
    assert Replace(EraseStack(o, c.stack), EraseFrame(o, fr)) == EraseStack(o, c.stack);
  }

  lemma EraseTop(o: Options, stack: seq<Frame>, fr: Frame)
    requires |stack| > 0
    ensures EraseStack(o, Replace(stack, fr)) == Replace(EraseStack(o, stack), EraseFrame(o, fr))
  {
  }

  /** Every other step is a step of the original program and leaves the memory alone. */
  lemma RealStep<S>(m: Module, o: Options, sem: Sem<S>, mem0: Mem, c: Config<S>)
    requires WellFormed(m) && Plain(m) && WellFormed(o.Module(m)) && Valid(o.Module(m), c)
    requires !InProbe(o, c) && Valid(m, Erase(o, mem0, c))
    ensures Erase(o, mem0, Step(o.Module(m), sem, c)) == Step(m, sem, Erase(o, mem0, c))
    ensures StepEvent(o.Module(m), sem, c) == StepEvent(m, sem, Erase(o, mem0, c))
    ensures !c.Fault? ==> !Step(o.Module(m), sem, c).Fault?
    ensures !c.Fault? ==> Step(o.Module(m), sem, c).mem == c.mem
    ensures StepEvent(o.Module(m), sem, c) == [] && PastProbes(o, c) ==> !InProbe(o, Step(o.Module(m), sem, c))
    ensures PastProbes(o, c) ==> PastProbes(o, Step(o.Module(m), sem, c))
  {
    if c.Running? {
      BlockShape(m, o, Top(c).fn, Top(c).block);
      if Top(c).pc < |BlockOf(o.Module(m), Top(c)).body| {
        RealInstrStep(m, o, sem, mem0, c);
      } else {
        RealTermStep(m, o, sem, mem0, c);
      }
    }
  }

  /** A suspended caller resumes after its inserted code. */
  ghost predicate PastProbes<S>(o: Options, c: Config<S>)
  {
    c.Running? ==> forall i :: 0 <= i < |c.stack| - 1 ==>
                     c.stack[i].pc >= |o.ProbeAt(c.stack[i].fn, c.stack[i].block)|
  }

  lemma RealInstrStep<S>(m: Module, o: Options, sem: Sem<S>, mem0: Mem, c: Config<S>)
    requires WellFormed(m) && Plain(m) && WellFormed(o.Module(m)) && Valid(o.Module(m), c)
    requires c.Running? && !InProbe(o, c) && Valid(m, Erase(o, mem0, c))
    requires Top(c).pc < |BlockOf(o.Module(m), Top(c)).body|
    ensures Erase(o, mem0, Step(o.Module(m), sem, c)) == Step(m, sem, Erase(o, mem0, c))
    ensures StepEvent(o.Module(m), sem, c) == StepEvent(m, sem, Erase(o, mem0, c))
    ensures Step(o.Module(m), sem, c).Running? && Step(o.Module(m), sem, c).mem == c.mem
    ensures StepEvent(o.Module(m), sem, c) == [] ==> !InProbe(o, Step(o.Module(m), sem, c))
    ensures PastProbes(o, c) ==> PastProbes(o, Step(o.Module(m), sem, c))
  {
    SameInstr(m, o, mem0, c);
    var e := Erase(o, mem0, c);
    StepIsInstr(o.Module(m), sem, c);
    StepIsInstr(m, sem, e);
    hide *;
    EraseStepInstr(m, o.Module(m), o, sem, mem0, c, BlockOf(m, Top(e)).body[Top(e).pc]);
    StepInstrPastProbes(o.Module(m), o, sem, c, BlockOf(m, Top(e)).body[Top(e).pc]);
  }

  /** Behind the inserted code the instrumented block holds the original instructions. */
  lemma SameInstr<S>(m: Module, o: Options, mem0: Mem, c: Config<S>)
    requires WellFormed(m) && Plain(m) && Valid(o.Module(m), c)
    requires c.Running? && !InProbe(o, c) && Valid(m, Erase(o, mem0, c))
    requires Top(c).pc < |BlockOf(o.Module(m), Top(c)).body|
    ensures var e := Erase(o, mem0, c);
            && e.Running? && Top(e).pc < |BlockOf(m, Top(e)).body|
            && var i := BlockOf(m, Top(e)).body[Top(e).pc];
            && BlockOf(o.Module(m), Top(c)).body[Top(c).pc] == i && !i.Emit?
            && (i.Call? ==> i.callee < |m| && |o.Module(m)[i.callee].blocks| == |m[i.callee].blocks|)
  {
    BlockShape(m, o, Top(c).fn, Top(c).block);
    assert Top(Erase(o, mem0, c)) == EraseFrame(o, Top(c));
    assert WellFormedBlocks(m, m[Top(c).fn].blocks);
  }

  /** The step of one original instruction commutes with erasure. */
  lemma EraseStepInstr<S>(m: Module, m': Module, o: Options, sem: Sem<S>, mem0: Mem, c: Config<S>, i: Instr)
    requires c.Running? && |c.stack| > 0 && !InProbe(o, c) && !i.Emit?
    requires |m| == |m'| && (i.Call? ==> i.callee < |m|)
    requires i.Call? ==> (m'[i.callee].blocks == [] <==> m[i.callee].blocks == [])
    ensures Erase(o, mem0, StepInstr(m', sem, c, i)) == StepInstr(m, sem, Erase(o, mem0, c), i)
    ensures InstrEvent(m', i) == InstrEvent(m, i)
  {
    var fr := Top(c);
    var next := Replace(c.stack, fr.(pc := fr.pc + 1));
    EraseTop(o, c.stack, fr.(pc := fr.pc + 1));
    assert Top(Erase(o, mem0, c)) == EraseFrame(o, fr);
    assert EraseFrame(o, fr.(pc := fr.pc + 1)) == EraseFrame(o, fr).(pc := EraseFrame(o, fr).pc + 1);
    var e, next' := Erase(o, mem0, c), EraseStack(o, next);
    assert next' == Replace(e.stack, Top(e).(pc := Top(e).pc + 1));
    if i.Call? && m[i.callee].blocks != [] {
      var callee := Frame(i.callee, 0, 0);
      assert EraseFrame(o, callee) == callee;
      ErasePush(o, next, callee);
      hide EraseStack, EraseFrame, InProbe, ExecProbe, Options.ProbeAt;
      assert StepInstr(m', sem, c, i) == Running(next + [callee], c.data, c.mem);
      assert StepInstr(m, sem, e, i) == Running(next' + [callee], e.data, e.mem);
    } else {
      hide EraseStack, EraseFrame, InProbe, ExecProbe, Options.ProbeAt;
    }
  }

  lemma ErasePush(o: Options, stack: seq<Frame>, fr: Frame)
    ensures EraseStack(o, stack + [fr]) == EraseStack(o, stack) + [EraseFrame(o, fr)]
  {
  }

  lemma StepInstrPastProbes<S>(m': Module, o: Options, sem: Sem<S>, c: Config<S>, i: Instr)
    requires c.Running? && |c.stack| > 0 && !InProbe(o, c) && !i.Emit? && (i.Call? ==> i.callee < |m'|)
    ensures StepInstr(m', sem, c, i).Running? && StepInstr(m', sem, c, i).mem == c.mem
    ensures InstrEvent(m', i) == [] ==> !InProbe(o, StepInstr(m', sem, c, i))
    ensures PastProbes(o, c) ==> PastProbes(o, StepInstr(m', sem, c, i))
  {
    hide Options.ProbeAt, ExecProbe;
  }

  /** At the end of a block both programs read the same terminator. */
  lemma SameTerm<S>(m: Module, o: Options, mem0: Mem, c: Config<S>)
    requires WellFormed(m) && Valid(o.Module(m), c)
    requires c.Running? && !InProbe(o, c) && Valid(m, Erase(o, mem0, c))
    requires Top(c).pc == |BlockOf(o.Module(m), Top(c)).body|
    ensures var e := Erase(o, mem0, c);
            && e.Running? && |e.stack| == |c.stack| && Top(e) == EraseFrame(o, Top(c))
            && Top(e).fn == Top(c).fn && Top(e).block == Top(c).block
            && Top(e).pc == |BlockOf(m, Top(e)).body|
            && BlockOf(o.Module(m), Top(c)).term == BlockOf(m, Top(e)).term
            && BlockOf(o.Module(m), Top(c)).succs == BlockOf(m, Top(e)).succs
  {
    BlockShape(m, o, Top(c).fn, Top(c).block);
    assert Top(Erase(o, mem0, c)) == EraseFrame(o, Top(c));
  }

  /** Returning commutes with erasure. */
  lemma EraseReturn<S>(o: Options, sem: Sem<S>, mem0: Mem, c: Config<S>, blk: Block, blk': Block)
    requires c.Running? && |c.stack| > 0 && blk.succs == [] && blk'.succs == []
    ensures Erase(o, mem0, StepTerm(sem, c, blk')) == StepTerm(sem, Erase(o, mem0, c), blk)
    ensures !StepTerm(sem, c, blk').Fault? && StepTerm(sem, c, blk').mem == c.mem
    ensures PastProbes(o, c) ==> PastProbes(o, StepTerm(sem, c, blk')) && !InProbe(o, StepTerm(sem, c, blk'))
  {
    hide Options.ProbeAt, EraseFrame;
    assert EraseStack(o, c.stack[..|c.stack| - 1]) == EraseStack(o, c.stack)[..|c.stack| - 1];
  }

  /** Branching commutes with erasure and shows the same event. */
  lemma EraseBranch<S>(o: Options, sem: Sem<S>, mem0: Mem, c: Config<S>, blk: Block, blk': Block)
    requires c.Running? && |c.stack| > 0 && blk.succs != [] && blk'.succs == blk.succs && blk'.term == blk.term
    requires Top(Erase(o, mem0, c)) == EraseFrame(o, Top(c))
    ensures Erase(o, mem0, StepTerm(sem, c, blk')) == StepTerm(sem, Erase(o, mem0, c), blk)
    ensures TermEvent(sem, c, blk') == TermEvent(sem, Erase(o, mem0, c), blk) != []
    ensures !StepTerm(sem, c, blk').Fault? && StepTerm(sem, c, blk').mem == c.mem
    ensures PastProbes(o, c) ==> PastProbes(o, StepTerm(sem, c, blk'))
  {
    var to := blk.succs[Pick(sem.branch(blk.term, c.data), |blk.succs|)];
    EraseTop(o, c.stack, Frame(Top(c).fn, to, 0));
    hide Options.ProbeAt, EraseStack;
  }

  lemma RealTermStep<S>(m: Module, o: Options, sem: Sem<S>, mem0: Mem, c: Config<S>)
    requires WellFormed(m) && WellFormed(o.Module(m)) && Valid(o.Module(m), c)
    requires c.Running? && !InProbe(o, c) && Valid(m, Erase(o, mem0, c))
    requires Top(c).pc == |BlockOf(o.Module(m), Top(c)).body|
    ensures Erase(o, mem0, Step(o.Module(m), sem, c)) == Step(m, sem, Erase(o, mem0, c))
    ensures StepEvent(o.Module(m), sem, c) == StepEvent(m, sem, Erase(o, mem0, c))
    ensures !Step(o.Module(m), sem, c).Fault? && Step(o.Module(m), sem, c).mem == c.mem
    ensures StepEvent(o.Module(m), sem, c) == [] && PastProbes(o, c) ==> !InProbe(o, Step(o.Module(m), sem, c))
    ensures PastProbes(o, c) ==> PastProbes(o, Step(o.Module(m), sem, c))
  {
    var e := Erase(o, mem0, c);
    SameTerm(m, o, mem0, c);
    StepIsTerm(o.Module(m), sem, c);
    StepIsTerm(m, sem, e);
    var blk, blk' := BlockOf(m, Top(e)), BlockOf(o.Module(m), Top(c));
    if blk.succs == [] {
      EraseReturn(o, sem, mem0, c, blk, blk');
      assert TermEvent(sem, c, blk') == [] == TermEvent(sem, e, blk);
      hide *;
    } else {
      EraseBranch(o, sem, mem0, c, blk, blk');
      hide *;
    }
  }

  /** How many of the first n steps belong to the original program. */
  ghost function RealSteps<S>(m: Module, o: Options, sem: Sem<S>, c: Config<S>, n: nat): nat
    requires WellFormed(o.Module(m)) && Valid(o.Module(m), c)
  {
    if n == 0 then 0
    else RealSteps(m, o, sem, c, n - 1) + (if InProbe(o, Run(o.Module(m), sem, c, n - 1)) then 0 else 1)
  }

  /** IDs of the blocks entered so far, the first block of the program included. */
  ghost function EntryIds<S>(
    m: Module, ids: map<BlockRef, nat>, sem: Sem<S>, main: nat, data: S, mem: Mem, n: nat): seq<nat>
    requires WellFormed(m) && Valid(m, Start(main, data, mem))
  {
    IdTrace(ids, [Enter(BlockRef(main, 0), AtStart)]) + IdTrace(ids, Trace(m, sem, Start(main, data, mem), n))
  }

  /** Midway through the inserted code of the last entered block. */
  ghost predicate Partway(o: Options, mem0: Mem, es: seq<nat>, code: seq<ProbeOp>, i: nat, mem: Mem)
  {
    && |es| > 0 && i < |code|
    && code == Probe(o.meth, o.upd, es[|es| - 1])
    && exists base :: Agrees(o, mem0, es[..|es| - 1], base) && ExecProbes(code[..i], base) == Some(mem)
  }

  /** The memory is right for the entries es, or will be once the current code has run. */
  ghost predicate OnTrack<S>(o: Options, mem0: Mem, es: seq<nat>, c: Config<S>)
  {
    && !c.Fault?
    && (if InProbe(o, c)
        then Partway(o, mem0, es, o.ProbeAt(Top(c).fn, Top(c).block), Top(c).pc, c.mem)
        else Agrees(o, mem0, es, c.mem))
  }

  lemma PartwayAdvances(o: Options, mem0: Mem, es: seq<nat>, code: seq<ProbeOp>, i: nat, mem: Mem)
    requires Fits(o, mem0) && Known(o, es) && Partway(o, mem0, es, code, i, mem)
    ensures ExecProbe(code[i], mem).Some?
    ensures if i + 1 < |code| then Partway(o, mem0, es, code, i + 1, ExecProbe(code[i], mem).value)
            else Agrees(o, mem0, es, ExecProbe(code[i], mem).value)
  {
    hide ExecProbes, ExecProbe, Agrees, Fits, Probe, Options.ProbeAt;
    var last, rest := es[|es| - 1], es[..|es| - 1];
    var base :| Agrees(o, mem0, rest, base) && ExecProbes(code[..i], base) == Some(mem);
    assert last in o.ids.Values && Known(o, rest);
    assert rest + [last] == es && code[..|code|] == code;
    assert i + 1 < |code| ==> code[..i + 1][..i] == code[..i];
    hide Known;
    ProbeCounts(o, mem0, rest, last, base);
    ExecPrefix(code, i, base);
  }

  lemma ProbeStepOnTrack<S>(m: Module, o: Options, sem: Sem<S>, mem0: Mem, es: seq<nat>, c: Config<S>)
    requires WellFormed(o.Module(m)) && Valid(o.Module(m), c) && InProbe(o, c)
    requires Fits(o, mem0) && Known(o, es) && OnTrack(o, mem0, es, c)
    ensures OnTrack(o, mem0, es, Step(o.Module(m), sem, c))
    ensures Erase(o, mem0, Step(o.Module(m), sem, c)) == Erase(o, mem0, c)
    ensures StepEvent(o.Module(m), sem, c) == []
  {
    var fr := Top(c);
    PartwayAdvances(o, mem0, es, o.ProbeAt(fr.fn, fr.block), fr.pc, c.mem);
    ProbeStep(m, o, sem, mem0, c);
    hide Step, Partway, Agrees, Fits, Known, WellFormed, Valid, Erase, ExecProbe;
  }

  /** Entering a block: either its code starts now, or it has none. */
  lemma EntryOnTrack<S>(o: Options, mem0: Mem, es: seq<nat>, c: Config<S>, e: Event)
    requires c.Running? && |c.stack| > 0 && Top(c) == Frame(e.at.fn, e.at.block, 0)
    requires Agrees(o, mem0, es, c.mem)
    ensures OnTrack(o, mem0, es + IdTrace(o.ids, [e]), c)
  {
    assert IdTrace(o.ids, [e]) == IdTrace(o.ids, []) + (if e.at in o.ids then [o.ids[e.at]] else []);
    if e.at in o.ids {
      var es' := es + [o.ids[e.at]];
      assert es'[..|es'| - 1] == es;
      var code := o.ProbeAt(e.at.fn, e.at.block);
      assert ExecProbes(code[..0], c.mem) == Some(c.mem);
    } else {
      assert es + [] == es;
    }
  }

  lemma RealStepOnTrack<S>(m: Module, o: Options, sem: Sem<S>, mem0: Mem, es: seq<nat>, c: Config<S>)
    requires WellFormed(m) && Plain(m) && WellFormed(o.Module(m)) && Valid(o.Module(m), c)
    requires !InProbe(o, c) && OnTrack(o, mem0, es, c) && PastProbes(o, c)
    requires Valid(m, Erase(o, mem0, c))
    ensures OnTrack(o, mem0, es + IdTrace(o.ids, StepEvent(o.Module(m), sem, c)), Step(o.Module(m), sem, c))
  {
    RealStep(m, o, sem, mem0, c);
    var ev, c' := StepEvent(o.Module(m), sem, c), Step(o.Module(m), sem, c);
    if ev != [] {
      EventAtMostOne(o.Module(m), sem, c);
      assert ev == [ev[0]];
      EntryOnTrack(o, mem0, es, c', ev[0]);
    } else {
      assert es + IdTrace(o.ids, []) == es;
    }
  }

  lemma ProbeKeepsPast<S>(m: Module, o: Options, sem: Sem<S>, mem0: Mem, c: Config<S>)
    requires WellFormed(o.Module(m)) && Valid(o.Module(m), c) && InProbe(o, c) && PastProbes(o, c)
    ensures PastProbes(o, Step(o.Module(m), sem, c))
  {
    ProbeStep(m, o, sem, mem0, c);
    hide Step, WellFormed, Valid, ExecProbe, Options.ProbeAt;
  }

  lemma {:induction false} EntriesKnown(o: Options, t: seq<Event>)
    ensures Known(o, IdTrace(o.ids, t))
  {
    if t != [] {
      EntriesKnown(o, t[..|t| - 1]);
    }
  }

  /** After n steps the instrumented program is a run of the original, cut after RealSteps:
      same control and data, same block entries, and the memory that the entries call for. */
  ghost predicate Faithful<S>(
    m: Module, o: Options, sem: Sem<S>, main: nat, data: S, mem0: Mem, n: nat)
    requires WellFormed(m) && WellFormed(o.Module(m))
    requires Valid(m, Start(main, data, mem0)) && Valid(o.Module(m), Start(main, data, mem0))
  {
    var c := Start(main, data, mem0);
    var c' := Run(o.Module(m), sem, c, n);
    var j := RealSteps(m, o, sem, c, n);
    && Erase(o, mem0, c') == Run(m, sem, c, j)
    && Trace(o.Module(m), sem, c, n) == Trace(m, sem, c, j)
    && PastProbes(o, c')
    && OnTrack(o, mem0, EntryIds(m, o.ids, sem, main, data, mem0, j), c')
  }

  lemma EntryIdsStep<S>(
    m: Module, ids: map<BlockRef, nat>, sem: Sem<S>, main: nat, data: S, mem0: Mem, j: nat)
    requires WellFormed(m) && Valid(m, Start(main, data, mem0))
    ensures EntryIds(m, ids, sem, main, data, mem0, j + 1) ==
            EntryIds(m, ids, sem, main, data, mem0, j) +
            IdTrace(ids, StepEvent(m, sem, Run(m, sem, Start(main, data, mem0), j)))
  {
    var c := Start(main, data, mem0);
    NextStep(m, sem, c, j);
    EventAtMostOne(m, sem, Run(m, sem, c, j));
    IdTraceAppend(ids, Trace(m, sem, c, j), StepEvent(m, sem, Run(m, sem, c, j)));
  }

  lemma EntryIdsKnown<S>(
    m: Module, o: Options, sem: Sem<S>, main: nat, data: S, mem0: Mem, j: nat)
    requires WellFormed(m) && Valid(m, Start(main, data, mem0))
    ensures Known(o, EntryIds(m, o.ids, sem, main, data, mem0, j))
  {
    EntriesKnown(o, [Enter(BlockRef(main, 0), AtStart)]);
    EntriesKnown(o, Trace(m, sem, Start(main, data, mem0), j));
  }

  lemma FaithfulStart<S>(m: Module, o: Options, sem: Sem<S>, main: nat, data: S, mem0: Mem)
    requires WellFormed(m) && WellFormed(o.Module(m)) && Fits(o, mem0)
    requires Valid(m, Start(main, data, mem0)) && Valid(o.Module(m), Start(main, data, mem0))
    ensures Faithful(m, o, sem, main, data, mem0, 0)
  {
    var c := Start(main, data, mem0);
    var e := Enter(BlockRef(main, 0), AtStart);
    EntryOnTrack(o, mem0, [], c, e);
    assert [] + IdTrace(o.ids, [e]) == IdTrace(o.ids, [e]) + IdTrace(o.ids, []);
    assert EraseStack(o, c.stack) == c.stack;
    hide Step, StepEvent, WellFormed, Valid, Fits, OnTrack, IdTrace;
  }

  /** What is left of Faithful once the runs have been unrolled by one step. */
  lemma FaithfulStep<S>(
    m: Module, o: Options, sem: Sem<S>, main: nat, data: S, mem0: Mem, n: nat)
    requires WellFormed(m) && Plain(m) && WellFormed(o.Module(m)) && Fits(o, mem0)
    requires Valid(m, Start(main, data, mem0)) && Valid(o.Module(m), Start(main, data, mem0))
    requires Faithful(m, o, sem, main, data, mem0, n)
    ensures Faithful(m, o, sem, main, data, mem0, n + 1)
  {
    hide Step, StepEvent, Run, Trace, RealSteps, EntryIds, IdTrace, OnTrack, PastProbes, Erase, InProbe,
      WellFormed, Plain, Valid, Fits, Known;
    var m', c := o.Module(m), Start(main, data, mem0);
    var d, j := Run(m', sem, c, n), RealSteps(m, o, sem, c, n);
    var es := EntryIds(m, o.ids, sem, main, data, mem0, j);
    NextStep(m', sem, c, n);
    NextStep(m, sem, c, j);
    RealStepsNext(m, o, sem, c, n);
    EntryIdsKnown(m, o, sem, main, data, mem0, j);
    EntryIdsStep(m, o.ids, sem, main, data, mem0, j);
    EraseValid(m, o, mem0, d);
    if InProbe(o, d) {
      ProbeKeepsPast(m, o, sem, mem0, d);
      ProbeStepOnTrack(m, o, sem, mem0, es, d);
      assert Trace(m', sem, c, n) + [] == Trace(m', sem, c, n);
    } else {
      RealStepOnTrack(m, o, sem, mem0, es, d);
      RealStep(m, o, sem, mem0, d);
    }
  }

  lemma InstrumentedStart<S>(m: Module, o: Options, main: nat, data: S, mem0: Mem)
    requires WellFormed(m) && IsBlock(m, main, 0)
    ensures WellFormed(o.Module(m)) && Valid(o.Module(m), Start(main, data, mem0))
    ensures Valid(m, Start(main, data, mem0))
  {
    InstrumentedWellFormed(m, o);
    BlockShape(m, o, main, 0);
  }

  lemma {:induction false} FaithfulAlways<S>(
    m: Module, o: Options, sem: Sem<S>, main: nat, data: S, mem0: Mem, n: nat)
    requires WellFormed(m) && Plain(m) && WellFormed(o.Module(m)) && Fits(o, mem0)
    requires Valid(m, Start(main, data, mem0)) && Valid(o.Module(m), Start(main, data, mem0))
    ensures Faithful(m, o, sem, main, data, mem0, n)
  {
    hide *;
    if n == 0 {
      FaithfulStart(m, o, sem, main, data, mem0);
    } else {
      FaithfulAlways(m, o, sem, main, data, mem0, n - 1);
      FaithfulStep(m, o, sem, main, data, mem0, n - 1);
    }
  }

  /** Main result. Any run of the instrumented program, cut anywhere, is a run of the original
      with the same data and the same block entries; it never leaves the bitmap; and outside the
      inserted code every counter is the closed form of its hits. */
  lemma InstrumentedRunIsFaithful<S>(
    m: Module, o: Options, sem: Sem<S>, main: nat, data: S, mem0: Mem, n: nat)
    requires WellFormed(m) && Plain(m) && IsBlock(m, main, 0) && Fits(o, mem0)
    ensures WellFormed(o.Module(m)) && Valid(o.Module(m), Start(main, data, mem0))
    ensures Valid(m, Start(main, data, mem0))
    ensures Faithful(m, o, sem, main, data, mem0, n)
  {
    InstrumentedStart(m, o, main, data, mem0);
    FaithfulAlways(m, o, sem, main, data, mem0, n);
    hide *;
  }

  /** A completed run leaves exactly the counts its block entries call for. */
  lemma CompletedRunCounts<S>(
    m: Module, o: Options, sem: Sem<S>, main: nat, data: S, mem0: Mem, n: nat)
    returns (j: nat)
    requires WellFormed(m) && Plain(m) && IsBlock(m, main, 0) && Fits(o, mem0)
    ensures WellFormed(o.Module(m)) && Valid(o.Module(m), Start(main, data, mem0))
    ensures Valid(m, Start(main, data, mem0))
    ensures !Run(o.Module(m), sem, Start(main, data, mem0), n).Fault?
    ensures Run(o.Module(m), sem, Start(main, data, mem0), n).Halted? ==>
              var c', es := Run(o.Module(m), sem, Start(main, data, mem0), n),
                            EntryIds(m, o.ids, sem, main, data, mem0, j);
              && Run(m, sem, Start(main, data, mem0), j) == Halted(c'.data, mem0)
              && forall l :: 0 <= l < |mem0.area| ==>
                   |c'.mem.area| == |mem0.area| &&
                   c'.mem.area[l] == Counted(o.upd, mem0.area[l], Hits(o.meth, mem0.prev, es, l))
  {
    InstrumentedRunIsFaithful(m, o, sem, main, data, mem0, n);
    hide Step, StepEvent, Run, Trace, WellFormed, Plain, Fits, Valid;
    j := RealSteps(m, o, sem, Start(main, data, mem0), n);
  }

  lemma ProbeStepAdvances<S>(m: Module, o: Options, sem: Sem<S>, mem0: Mem, c: Config<S>)
    requires WellFormed(o.Module(m)) && Valid(o.Module(m), c) && InProbe(o, c)
    requires !Step(o.Module(m), sem, c).Fault?
    ensures var c' := Step(o.Module(m), sem, c);
            c'.Running? && |c'.stack| > 0 && Top(c') == Top(c).(pc := Top(c).pc + 1)
  {
    ProbeStep(m, o, sem, mem0, c);
  }

  /** Inserted code ends: from step n the run gets out of it without an original step. */
  lemma {:induction false} ProbeEnds<S>(
    m: Module, o: Options, sem: Sem<S>, main: nat, data: S, mem0: Mem, n: nat)
    returns (n': nat)
    requires WellFormed(m) && Plain(m) && IsBlock(m, main, 0) && Fits(o, mem0)
    requires WellFormed(o.Module(m)) && Valid(o.Module(m), Start(main, data, mem0))
    ensures n' >= n && !InProbe(o, Run(o.Module(m), sem, Start(main, data, mem0), n'))
    ensures RealSteps(m, o, sem, Start(main, data, mem0), n') ==
            RealSteps(m, o, sem, Start(main, data, mem0), n)
    decreases var c := Run(o.Module(m), sem, Start(main, data, mem0), n);
              if InProbe(o, c) then |o.ProbeAt(Top(c).fn, Top(c).block)| - Top(c).pc else 0
  {
    var c := Start(main, data, mem0);
    if InProbe(o, Run(o.Module(m), sem, c, n)) {
      InstrumentedRunIsFaithful(m, o, sem, main, data, mem0, n + 1);
      ProbeStepAdvances(m, o, sem, mem0, Run(o.Module(m), sem, c, n));
      hide Step, Valid, WellFormed, Plain, Fits, EntryIds, PastProbes, Erase;
      NextStep(o.Module(m), sem, c, n);
      n' := ProbeEnds(m, o, sem, main, data, mem0, n + 1);
    } else {
      n' := n;
    }
  }

  /** Every original step is matched, so the instrumented program finishes when the original does. */
  lemma {:induction false} InstrumentedCatchesUp<S>(
    m: Module, o: Options, sem: Sem<S>, main: nat, data: S, mem0: Mem, j: nat)
    returns (n: nat)
    requires WellFormed(m) && Plain(m) && IsBlock(m, main, 0) && Fits(o, mem0)
    requires WellFormed(o.Module(m)) && Valid(o.Module(m), Start(main, data, mem0))
    ensures RealSteps(m, o, sem, Start(main, data, mem0), n) == j
    ensures !InProbe(o, Run(o.Module(m), sem, Start(main, data, mem0), n))
  {
    hide *;
    if j == 0 {
      RealStepsZero(m, o, sem, Start(main, data, mem0));
      n := ProbeEnds(m, o, sem, main, data, mem0, 0);
    } else {
      n := InstrumentedCatchesUp(m, o, sem, main, data, mem0, j - 1);
      RealStepsNext(m, o, sem, Start(main, data, mem0), n);
      n := ProbeEnds(m, o, sem, main, data, mem0, n + 1);
    }
  }

  lemma RealStepsZero<S>(m: Module, o: Options, sem: Sem<S>, c: Config<S>)
    requires WellFormed(o.Module(m)) && Valid(o.Module(m), c)
    ensures RealSteps(m, o, sem, c, 0) == 0
  {
  }

  lemma RealStepsNext<S>(m: Module, o: Options, sem: Sem<S>, c: Config<S>, n: nat)
    requires WellFormed(o.Module(m)) && Valid(o.Module(m), c)
    ensures RealSteps(m, o, sem, c, n + 1) ==
            RealSteps(m, o, sem, c, n) + (if InProbe(o, Run(o.Module(m), sem, c, n)) then 0 else 1)
  {
  }

  // ----- HASHED_EDGE keeps edges apart -----

  /** The counter of the edge from block a to block b. */
  function EdgeLocation(a: nat, b: nat): nat
  {
    Location(HashedEdge, PrevAfter(HashedEdge, 0, [a]), b)
  }

  lemma XorSameRight(a: nat, b: nat, c: nat)
    ensures Xor(a, c) == Xor(b, c) <==> a == b
    ensures Xor(c, a) == Xor(c, b) <==> a == b
  {
    XorCancel(a, c);
    XorCancel(b, c);
  }

  /** Direction matters; distinct self-loops, and distinct targets of one source, never collide;
      two sources share a counter for one target exactly when they differ in the lowest bit only;
      and numbers of k bits give counters below 2^k. */
  lemma HashedEdgeCollisions(a: nat, b: nat, c: nat)
    ensures EdgeLocation(a, b) == EdgeLocation(b, a) <==> a == b
    ensures EdgeLocation(a, a) == EdgeLocation(b, b) <==> a == b
    ensures EdgeLocation(a, c) == EdgeLocation(b, c) <==> a / 2 == b / 2
    ensures EdgeLocation(c, a) == EdgeLocation(c, b) <==> a == b
    ensures forall k: nat :: a < Pow2(k) && b < Pow2(k) ==> EdgeLocation(a, b) < Pow2(k)
  {
    if EdgeLocation(a, b) == EdgeLocation(b, a) {
      // (a/2 ^ b) ^ (b/2 ^ a) vanishes, and so do the Gray codes' difference
      XorSelf(Xor(a / 2, b));
      XorComm(b / 2, a);
      XorSwap(a / 2, b, a, b / 2);
      XorComm(a / 2, a);
      XorZeroMeansEqual(Xor(a, a / 2), Xor(b, b / 2));
      GrayInjective(a, b);
    }
    if EdgeLocation(a, a) == EdgeLocation(b, b) {
      XorComm(a / 2, a);
      XorComm(b / 2, b);
      GrayInjective(a, b);
    }
    XorSameRight(a / 2, b / 2, c);
    XorSameRight(a, b, c / 2);
    forall k: nat | a < Pow2(k) && b < Pow2(k)
      ensures EdgeLocation(a, b) < Pow2(k)
    {
      XorBelow(a / 2, b, k);
    }
  }

  lemma XorZeroMeansEqual(a: nat, b: nat)
    requires Xor(a, b) == 0
    ensures a == b
  {
    XorCancel(a, b);
    XorZero(b);
  }

  // ----- which maps are large enough -----

  /** Numbers below 2^k fit into a map of at least 2^k counters, under either method. */
  lemma PowerOfTwoFits(o: Options, mem0: Mem, k: nat)
    requires forall r :: r in o.ids ==> o.ids[r] < Pow2(k)
    requires Pow2(k) <= |mem0.area| && mem0.prev < Pow2(k)
    ensures Fits(o, mem0)
  {
    forall v | v in o.ids.Values
      ensures Location(o.meth, mem0.prev, v) < |mem0.area|
    {
      XorBelow(mem0.prev, v, k);
    }
    forall u, v | u in o.ids.Values && v in o.ids.Values
      ensures Location(o.meth, u / 2, v) < |mem0.area|
    {
      XorBelow(u / 2, v, k);
    }
  }

  /** With numbers drawn from 0 to n - 1 and n counters, HASHED_EDGE is sure to stay inside the map
      exactly when n is a power of two. Otherwise n = 2^j + r with 0 < r < 2^j, and the edge from
      block 2r to block 2^j has the location n. */
  lemma HashedEdgeFitsIffPowerOfTwo(n: nat)
    requires n > 0
    ensures (forall a: nat, b: nat | a < n && b < n :: EdgeLocation(a, b) < n) <==> IsPowerOfTwo(n)
  {
    var j := BetweenPowers(n);
    if Pow2(j) == n {
      forall a: nat, b: nat | a < n && b < n
        ensures EdgeLocation(a, b) < n
      {
        XorBelow(a / 2, b, j);
      }
    } else {
      var r := n - Pow2(j);
      XorAboveIsSum(r, j);
      assert EdgeLocation(2 * r, Pow2(j)) == n;
      forall k: nat
        ensures Pow2(k) != n
      {
        Pow2Monotone(k, j);
        Pow2Monotone(j + 1, k);
      }
    }
  }

  /** The smallest such map: three counters, block 2 jumping to itself. */
  lemma ThreeCountersAreTooFew()
    ensures EdgeLocation(2, 2) == 3
  {
    XorAboveIsSum(1, 1);
    assert Pow2(1) == 2;
  }
}
