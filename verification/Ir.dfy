/** A small compiler IR: modules of functions, blocks with an abstract body, direct
    calls and ordered successor lists, together with its small-step semantics.
    What an ordinary instruction computes is a parameter of the semantics. */
module Ir {
  import opened Bits
  import opened Prelude

  /** The instructions the bitmap pass emits; they only touch `Mem`. */
  datatype ProbeOp =
    | LoadPrev | StorePrev(value: nat) | XorPrev(cur: nat) | SetLocation(cur: nat)
    | IndexMap | LoadCounter | AddOne | CarryIfZero | CarryIfNotFF | AddCarry | StoreCounter

  datatype Instr = Op(code: nat) | Call(callee: nat) | Emit(probe: ProbeOp)

  /** `succs` keeps order and repetitions; no successors means return. */
  datatype Block = Block(body: seq<Instr>, term: nat, succs: seq<nat>)

  /** A function without blocks is a declaration. Block 0 is the entry. */
  datatype Func = Func(blocks: seq<Block>)

  type Module = seq<Func>

  datatype BlockRef = BlockRef(fn: nat, block: nat)

  /** Temporaries of the inserted code. */
  datatype Temps = Temps(prev: nat, loc: nat, ptr: nat, cnt: Byte, carry: Byte)

  /** `__bitmap_prev_loc`, the bitmap, and the temporaries. */
  datatype Mem = Mem(prev: nat, area: seq<Byte>, tmp: Temps)

  /** The meaning of ordinary instructions, external calls and branch conditions. */
  datatype Sem<!S> = Sem(op: (nat, S) -> S, ext: (nat, S) -> S, branch: (nat, S) -> nat)

  datatype Frame = Frame(fn: nat, block: nat, pc: nat)

  datatype Config<S> =
    | Running(stack: seq<Frame>, data: S, mem: Mem)
    | Halted(data: S, mem: Mem)
    | Fault

  /** How a block came to be entered. */
  datatype Via = AtStart | ByCall | ByEdge(from: nat, index: nat)

  datatype Event = Enter(at: BlockRef, via: Via)

  ghost predicate WellFormed(m: Module)
  {
    forall f | 0 <= f < |m| :: WellFormedBlocks(m, m[f].blocks)
  }

  ghost predicate WellFormedBlocks(m: Module, blocks: seq<Block>)
  {
    forall b | 0 <= b < |blocks| ::
      (forall i | 0 <= i < |blocks[b].succs| :: blocks[b].succs[i] < |blocks|) &&
      (forall p | 0 <= p < |blocks[b].body| ::
         blocks[b].body[p].Call? ==> blocks[b].body[p].callee < |m|)
  }

  /** No inserted code yet. */
  ghost predicate Plain(m: Module)
  {
    forall f, b, p ::
      0 <= f < |m| && 0 <= b < |m[f].blocks| && 0 <= p < |m[f].blocks[b].body| ==>
        !m[f].blocks[b].body[p].Emit?
  }

  predicate IsBlock(m: Module, f: nat, b: nat)
  {
    f < |m| && b < |m[f].blocks|
  }

  predicate ValidFrame(m: Module, fr: Frame)
  {
    IsBlock(m, fr.fn, fr.block) && fr.pc <= |m[fr.fn].blocks[fr.block].body|
  }

  ghost predicate Valid<S>(m: Module, c: Config<S>)
  {
    c.Running? ==> |c.stack| > 0 && forall i | 0 <= i < |c.stack| :: ValidFrame(m, c.stack[i])
  }

  /** The block a configuration is executing. */
  function Top<S>(c: Config<S>): Frame
    requires c.Running? && |c.stack| > 0
  {
    c.stack[|c.stack| - 1]
  }

  function BlockOf(m: Module, fr: Frame): Block
    requires ValidFrame(m, fr)
  {
    m[fr.fn].blocks[fr.block]
  }

  /** A condition selects a successor; the last one is the default. */
  function Pick(choice: nat, n: nat): (r: nat)
    requires n > 0
    ensures r < n
  {
    if choice < n then choice else n - 1
  }

  function Replace(stack: seq<Frame>, fr: Frame): (r: seq<Frame>)
    requires |stack| > 0
    ensures |r| == |stack|
  {
    stack[|stack| - 1 := fr]
  }

  /** One inserted instruction; a counter outside the map is a memory fault. */
  function ExecProbe(p: ProbeOp, mem: Mem): Option<Mem>
  {
    var t := mem.tmp;
    match p
    case LoadPrev => Some(mem.(tmp := t.(prev := mem.prev)))
    case StorePrev(v) => Some(mem.(prev := v))
    case XorPrev(cur) => Some(mem.(tmp := t.(loc := Xor(t.prev, cur))))
    case SetLocation(cur) => Some(mem.(tmp := t.(loc := cur)))
    case IndexMap => Some(mem.(tmp := t.(ptr := t.loc)))
    case LoadCounter =>
      if t.ptr < |mem.area| then Some(mem.(tmp := t.(cnt := mem.area[t.ptr]))) else None
    case AddOne => Some(mem.(tmp := t.(cnt := (t.cnt + 1) % 256)))
    case CarryIfZero => Some(mem.(tmp := t.(carry := if t.cnt == 0 then 1 else 0)))
    case CarryIfNotFF => Some(mem.(tmp := t.(carry := if t.cnt != 255 then 1 else 0)))
    case AddCarry => Some(mem.(tmp := t.(cnt := (t.cnt + t.carry) % 256)))
    case StoreCounter =>
      if t.ptr < |mem.area| then Some(mem.(area := mem.area[t.ptr := t.cnt])) else None
  }

  function StepInstr<S>(m: Module, sem: Sem<S>, c: Config<S>, i: Instr): Config<S>
    requires c.Running? && |c.stack| > 0
    requires i.Call? ==> i.callee < |m|
  {
    var fr := Top(c);
    var next := Replace(c.stack, fr.(pc := fr.pc + 1));
    match i
    case Op(code) => Running(next, sem.op(code, c.data), c.mem)
    case Call(g) =>
      if m[g].blocks == [] then Running(next, sem.ext(g, c.data), c.mem)
      else Running(next + [Frame(g, 0, 0)], c.data, c.mem)
    case Emit(p) =>
      var mem' := ExecProbe(p, c.mem);
      if mem'.Some? then Running(next, c.data, mem'.value) else Fault
  }

  function StepTerm<S>(sem: Sem<S>, c: Config<S>, blk: Block): Config<S>
    requires c.Running? && |c.stack| > 0
  {
    var fr := Top(c);
    if blk.succs == [] then
      if |c.stack| == 1 then Halted(c.data, c.mem)
      else Running(c.stack[..|c.stack| - 1], c.data, c.mem)
    else
      var to := blk.succs[Pick(sem.branch(blk.term, c.data), |blk.succs|)];
      Running(Replace(c.stack, Frame(fr.fn, to, 0)), c.data, c.mem)
  }

  ghost function Step<S>(m: Module, sem: Sem<S>, c: Config<S>): (c': Config<S>)
    requires WellFormed(m) && Valid(m, c)
    ensures Valid(m, c')
  {
    if !c.Running? then c
    else
      var fr := Top(c);
      var blk := BlockOf(m, fr);
      assert WellFormedBlocks(m, m[fr.fn].blocks);
      if fr.pc < |blk.body| then StepInstr(m, sem, c, blk.body[fr.pc])
      else StepTerm(sem, c, blk)
  }

  function InstrEvent(m: Module, i: Instr): seq<Event>
    requires i.Call? ==> i.callee < |m|
  {
    if i.Call? && m[i.callee].blocks != [] then [Enter(BlockRef(i.callee, 0), ByCall)] else []
  }

  function TermEvent<S>(sem: Sem<S>, c: Config<S>, blk: Block): seq<Event>
    requires c.Running? && |c.stack| > 0
  {
    if blk.succs == [] then []
    else
      var i := Pick(sem.branch(blk.term, c.data), |blk.succs|);
      [Enter(BlockRef(Top(c).fn, blk.succs[i]), ByEdge(Top(c).block, i))]
  }

  /** The block entered by the next step, if any, and by which edge. */
  ghost function StepEvent<S>(m: Module, sem: Sem<S>, c: Config<S>): seq<Event>
    requires WellFormed(m) && Valid(m, c)
  {
    if !c.Running? then []
    else
      var fr := Top(c);
      var blk := BlockOf(m, fr);
      assert WellFormedBlocks(m, m[fr.fn].blocks);
      if fr.pc < |blk.body| then InstrEvent(m, blk.body[fr.pc]) else TermEvent(sem, c, blk)
  }

  lemma StepIsInstr<S>(m: Module, sem: Sem<S>, c: Config<S>)
    requires WellFormed(m) && Valid(m, c) && c.Running? && Top(c).pc < |BlockOf(m, Top(c)).body|
    ensures var i := BlockOf(m, Top(c)).body[Top(c).pc];
            && (i.Call? ==> i.callee < |m|)
            && Step(m, sem, c) == StepInstr(m, sem, c, i) && StepEvent(m, sem, c) == InstrEvent(m, i)
  {
    assert WellFormedBlocks(m, m[Top(c).fn].blocks);
  }

  lemma StepIsTerm<S>(m: Module, sem: Sem<S>, c: Config<S>)
    requires WellFormed(m) && Valid(m, c) && c.Running? && Top(c).pc == |BlockOf(m, Top(c)).body|
    ensures Step(m, sem, c) == StepTerm(sem, c, BlockOf(m, Top(c)))
    ensures StepEvent(m, sem, c) == TermEvent(sem, c, BlockOf(m, Top(c)))
  {
  }

  function Start<S>(main: nat, data: S, mem: Mem): Config<S>
  {
    Running([Frame(main, 0, 0)], data, mem)
  }

  /** The configuration after n steps. */
  ghost function Run<S>(m: Module, sem: Sem<S>, c: Config<S>, n: nat): (c': Config<S>)
    requires WellFormed(m) && Valid(m, c)
    ensures Valid(m, c')
  {
    if n == 0 then c else Step(m, sem, Run(m, sem, c, n - 1))
  }

  /** Blocks entered during the first n steps, in order. */
  ghost function Trace<S>(m: Module, sem: Sem<S>, c: Config<S>, n: nat): seq<Event>
    requires WellFormed(m) && Valid(m, c)
  {
    if n == 0 then []
    else Trace(m, sem, c, n - 1) + StepEvent(m, sem, Run(m, sem, c, n - 1))
  }

  lemma RunZero<S>(m: Module, sem: Sem<S>, c: Config<S>)
    requires WellFormed(m) && Valid(m, c)
    ensures Run(m, sem, c, 0) == c && Trace(m, sem, c, 0) == []
  {
  }

  lemma NextStep<S>(m: Module, sem: Sem<S>, c: Config<S>, n: nat)
    requires WellFormed(m) && Valid(m, c)
    ensures Run(m, sem, c, n + 1) == Step(m, sem, Run(m, sem, c, n))
    ensures Trace(m, sem, c, n + 1) == Trace(m, sem, c, n) + StepEvent(m, sem, Run(m, sem, c, n))
  {
  }
}
