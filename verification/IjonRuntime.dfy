/** The IJON runtime with its globals updated in place, each entry point proved against the
    value-level model of the maps and registers. */
module IjonRuntime {
  import opened Bits
  import opened IjonMaps
  import opened IjonState
  import opened Prelude

  /** `ijon_min` is `ijon_max` on the complement. */
  lemma MinIsMax(rt: Runtime, addr: nat, val: nat)
    requires rt.Ready() && addr < WORD32 && val < WORD64
    ensures Do(rt, MinOf(addr, val)) == Do(rt, Call.Max(addr, WORD64 - 1 - val))
  {
  }

  lemma DoMax(rt: Runtime, addr: nat, val: nat)
    requires rt.Ready() && addr < WORD32 && val < WORD64
    ensures var i := addr % rt.layout.MaxSlots();
            && SLOT_SIZE * i + SLOT_SIZE <= rt.layout.max.size
            && Do(rt, Call.Max(addr, val)) ==
               (if FromLE(Read(rt.memory, rt.layout.max, SLOT_SIZE * i, SLOT_SIZE)) < val
                then rt.(memory := Write(rt.memory, rt.layout.max, SLOT_SIZE * i, ToLE(val, SLOT_SIZE))) else rt)
  {
    SlotInside(rt.layout, addr % rt.layout.MaxSlots());
  }

  /** Mapping into a large enough segment leaves every index inside its region, unless the max
      region is one to seven bytes long; writing the first area byte does not change that. */
  lemma MappedIsReady(m: Memory, area: Option<nat>, counter: Option<nat>, max: Option<nat>)
    requires |m.areaInitial| == MAP_SIZE && |m.maxInitial| == SLOT_SIZE * DEFAULT_SLOTS
    requires Taken(area) + Taken(counter) + Taken(max) <= |m.shared|
    ensures var l := MapLayout(area, counter, max);
            && m.Fits(l.area) && l.area.size > 0
            && forall r :: Runtime(l, Write(m, l.area, 0, [1]), r).Ready() <==> !(max.Some? && 1 <= max.value < 8)
  {
    LayoutIsSound(area, counter, max);
  }

  class IjonGlobals {
    const areaInitial: array<Byte>
    const maxInitial: array<Byte>
    const shared: array<Byte>
    var layout: Layout
    var state: nat
    var log: nat

    ghost function Abstract(): Runtime
      reads this, areaInitial, maxInitial, shared
    {
      Runtime(layout, Memory(areaInitial[..], maxInitial[..], shared[..]), Registers(state, log))
    }

    ghost predicate Valid()
      reads this, areaInitial, maxInitial, shared
    {
      && areaInitial != maxInitial && areaInitial != shared && maxInitial != shared
      && areaInitial.Length == MAP_SIZE && maxInitial.Length == SLOT_SIZE * DEFAULT_SLOTS
    }

    /** The runtime as the program starts, next to a shared segment that is not mapped yet. */
    constructor (segment: array<Byte>)
      ensures Valid() && Abstract().Ready()
      ensures layout == INITIAL && state == 0 && log == 0 && shared == segment
      ensures fresh(areaInitial) && fresh(maxInitial)
    {
      areaInitial := new Byte[MAP_SIZE](i => 0);
      maxInitial := new Byte[SLOT_SIZE * DEFAULT_SLOTS](i => 0);
      shared := segment;
      layout, state, log := INITIAL, 0, 0;
    }

    function Buffer(s: Segment): (a: array<Byte>)
    {
      match s
      case AreaInitial => areaInitial
      case MaxInitial => maxInitial
      case Shared => shared
    }

    /** The mapping function, with the sizes found in the environment: each non-zero size takes its
        bytes from the front of what is left, and the first area byte is set. Afterwards every entry
        point is usable unless the max region is one to seven bytes long. */
    method MapShm(area: Option<nat>, counter: Option<nat>, max: Option<nat>)
      requires Valid() && layout == INITIAL
      requires Taken(area) + Taken(counter) + Taken(max) <= shared.Length
      modifies this`layout, areaInitial, shared
      ensures Valid() && layout == MapLayout(area, counter, max)
      ensures Abstract() ==
              old(Abstract()).(layout := layout, memory := Write(old(Abstract()).memory, layout.area, 0, [1]))
      ensures Abstract().Ready() <==> !(max.Some? && 1 <= max.value < 8)
    {
      MappedIsReady(Abstract().memory, area, counter, max);
      hide Write, Splice;
      var cursor := 0;
      var l := layout;
      if area.Some? && area.value != 0 {
        l := l.(area := Region(Shared, cursor, area.value));
        cursor := cursor + area.value;
      }
      if counter.Some? && counter.value != 0 {
        l := l.(counter := Region(Shared, cursor, counter.value));
        cursor := cursor + counter.value;
      }
      if max.Some? && max.value != 0 {
        l := l.(max := Region(Shared, cursor, max.value));
      }
      layout := l;
      assert layout == MapLayout(area, counter, max);
      ghost var before := Abstract();
      hide MapLayout, Runtime.Ready;
      Store(layout.area, 0, 1);
    }

    /** One byte of a region. */
    method Store(r: Region, i: nat, b: Byte)
      requires Valid() && Abstract().memory.Fits(r) && i < r.size
      modifies Buffer(r.segment)
      ensures Valid() && Abstract() == old(Abstract()).(memory := Write(old(Abstract()).memory, r, i, [b]))
    {
      var a := Buffer(r.segment);
      a[r.offset + i] := b;
      assert a[..] == Splice(old(a[..]), r.offset + i, [b]);
    }

    /** One aligned word of a region. */
    method StoreWord(r: Region, i: nat, word: seq<Byte>)
      requires Valid() && Abstract().memory.Fits(r) && i + |word| <= r.size
      modifies Buffer(r.segment)
      ensures Valid() && Abstract() == old(Abstract()).(memory := Write(old(Abstract()).memory, r, i, word))
    {
      var a, at := Buffer(r.segment), r.offset + i;
      forall j | 0 <= j < |word| {
        a[at + j] := word[j];
      }
      assert a[..] == Splice(old(a[..]), at, word);
    }

    method XorState(val: nat)
      requires Valid() && layout.counter.size > 0
      modifies this`state
      ensures Valid() && layout == old(layout)
      ensures Abstract() ==
              old(Abstract()).(registers := Perform(old(Abstract()).registers, CallXor(val), layout.counter.size))
    {
      state := Xor(state, val) % layout.counter.size;
    }

    method PushState(x: nat)
      requires Valid() && layout.counter.size > 0
      modifies this`state, this`log
      ensures Valid() && layout == old(layout)
      ensures Abstract() ==
              old(Abstract()).(registers := Perform(old(Abstract()).registers, CallPush(x), layout.counter.size))
    {
      XorState(log);
      log := (log * 256) % WORD32 + x % 256;
      XorState(log);
    }

    method MapInc(addr: nat)
      requires Valid() && Abstract().Ready()
      modifies Buffer(layout.counter.segment)
      ensures Valid() && Abstract() == Do(old(Abstract()), Inc(addr))
    {
      hide Write, Splice, Read, FromLE;
      var a, k := Buffer(layout.counter.segment), Xor(state, addr) % layout.counter.size;
      Store(layout.counter, k, BumpCounter(a[layout.counter.offset + k]));
    }

    method MapSet(addr: nat)
      requires Valid() && Abstract().Ready()
      modifies Buffer(layout.counter.segment)
      ensures Valid() && Abstract() == Do(old(Abstract()), Set(addr))
    {
      hide Write, Splice, Read, FromLE;
      var a, k := Buffer(layout.counter.segment), Xor(state, addr) % layout.counter.size;
      Store(layout.counter, k, SetLowBit(a[layout.counter.offset + k]));
    }

    /** The eight bytes of a max slot are compared and replaced as one word. */
    method Max(addr: nat, val: nat)
      requires Valid() && Abstract().Ready() && addr < WORD32 && val < WORD64
      modifies Buffer(layout.max.segment)
      ensures Valid() && Abstract() == Do(old(Abstract()), Call.Max(addr, val))
    {
      var a, i := Buffer(layout.max.segment), addr % (layout.max.size / SLOT_SIZE);
      ghost var before := Abstract();
      SlotInside(layout, i);
      DoMax(before, addr, val);
      hide Do, FromLE, ToLE;
      var at := layout.max.offset + SLOT_SIZE * i;
      assert a[at..at + SLOT_SIZE] == Read(before.memory, layout.max, SLOT_SIZE * i, SLOT_SIZE);
      if FromLE(a[at..at + SLOT_SIZE]) < val {
        StoreWord(layout.max, SLOT_SIZE * i, ToLE(val, SLOT_SIZE));
      }
    }

    method Min(addr: nat, val: nat)
      requires Valid() && Abstract().Ready() && addr < WORD32 && val < WORD64
      modifies Buffer(layout.max.segment)
      ensures Valid() && Abstract() == Do(old(Abstract()), MinOf(addr, val))
    {
      ghost var before := Abstract();
      hide Do, Runtime.Ready, IjonGlobals.Abstract;
      Max(addr, 0xffff_ffff_ffff_ffff - val);
      MinIsMax(before, addr, val);
    }

    /** One call of the runtime. */
    method Handle(c: Call)
      requires Valid() && Abstract().Ready() && c.Valid()
      modifies this`state, this`log, Buffer(layout.counter.segment), Buffer(layout.max.segment)
      ensures Valid() && layout == old(layout)
      ensures Abstract() == Do(old(Abstract()), c)
    {
      match c
      case State(CallXor(val)) => XorState(val);
      case State(CallPush(x)) => PushState(x);
      case Max(addr, val) => Max(addr, val);
      case MinOf(addr, val) => Min(addr, val);
      case Inc(addr) => MapInc(addr);
      case Set(addr) => MapSet(addr);
    }

    /** The calls an instrumented expression makes, in order. */
    method HandleAll(cs: seq<Call>)
      requires Valid() && Abstract().Ready() && AllValid(cs)
      modifies this`state, this`log, Buffer(layout.counter.segment), Buffer(layout.max.segment)
      ensures Valid() && layout == old(layout)
      ensures Abstract() == DoAll(old(Abstract()), cs)
    {
      ghost var before := Abstract();
      hide Runtime.Ready, Do;
      for i := 0 to |cs|
        invariant Valid() && layout == old(layout)
        invariant Abstract() == DoAll(before, cs[..i])
      {
        assert cs[..i + 1][..i] == cs[..i];
        Handle(cs[i]);
      }
      assert cs[..|cs|] == cs;
    }

    /** IJON_CTX around an expression that makes the calls of `body`, contexts included. With 2^k
        counters the registers end as they would without the context. */
    method Context(hash: nat, body: seq<Call>)
      requires Valid() && Abstract().Ready() && AllValid(body)
      modifies this`state, this`log, Buffer(layout.counter.segment), Buffer(layout.max.segment)
      ensures Valid() && layout == old(layout)
      ensures AllValid(Around(hash, body)) && Abstract() == DoAll(old(Abstract()), Around(hash, body))
      ensures forall k: nat :: layout.counter.size == Pow2(k) && old(state) < Pow2(k) ==>
                Registers(state, log) == DoAll(old(Abstract()), body).registers
    {
      ghost var before := Abstract();
      AroundValid(hash, body);
      var cs := Around(hash, body);
      HandleAll(cs);
      hide Runtime.Ready, Do, DoAll;
      forall k: nat | layout.counter.size == Pow2(k) && before.registers.state < Pow2(k)
        ensures DoAll(before, cs).registers == DoAll(before, body).registers
      {
        ContextRegisters(before, hash, body, k);
      }
    }
  }
}
