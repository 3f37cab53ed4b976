/** The IJON maps: how three optional sizes cut up the shared segment, and what any sequence of
    calls does to the bytes of each region. */
module IjonMaps {
  import opened Bits
  import opened IjonState
  import opened Prelude

  const DEFAULT_SLOTS: nat := 512
  const SLOT_SIZE: nat := 8

  datatype Segment = AreaInitial | MaxInitial | Shared

  datatype Region = Region(segment: Segment, offset: nat, size: nat)
  {
    predicate Has(s: Segment, k: nat)
    {
      segment == s && offset <= k < offset + size
    }
  }

  /** The three pointers with the sizes their indices are reduced by. */
  datatype Layout = Layout(area: Region, counter: Region, max: Region)
  {
    function MaxSlots(): nat
    {
      max.size / SLOT_SIZE
    }
  }

  const DEFAULT_AREA: Region := Region(AreaInitial, 0, MAP_SIZE)
  const DEFAULT_MAX: Region := Region(MaxInitial, 0, SLOT_SIZE * DEFAULT_SLOTS)
  const INITIAL: Layout := Layout(DEFAULT_AREA, DEFAULT_AREA, DEFAULT_MAX)

  /** A size variable that is set and not zero. */
  predicate Mapped(size: Option<nat>)
  {
    size.Some? && size.value > 0
  }

  function Taken(size: Option<nat>): nat
  {
    if size.Some? then size.value else 0
  }

  function Place(default: Region, cursor: nat, size: Option<nat>): Region
  {
    if Mapped(size) then Region(Shared, cursor, size.value) else default
  }

  /** The layout after mapping, the cursor moving over the regions in order. */
  function MapLayout(area: Option<nat>, counter: Option<nat>, max: Option<nat>): Layout
  {
    Layout(Place(DEFAULT_AREA, 0, area),
           Place(DEFAULT_AREA, Taken(area), counter),
           Place(DEFAULT_MAX, Taken(area) + Taken(counter), max))
  }

  predicate Disjoint(a: Region, b: Region)
  {
    a.segment != b.segment || a.offset + a.size <= b.offset || b.offset + b.size <= a.offset
  }

  /** For every combination of sizes: a mapped region has the size asked for, the others the initial
      one; area, counters and max slots follow one another in this order and tile the front of the
      segment; the max region meets no other; area and counters share memory exactly when neither is
      mapped; and a max slot exists exactly unless one to seven bytes were given. */
  lemma LayoutIsSound(area: Option<nat>, counter: Option<nat>, max: Option<nat>)
    ensures var l := MapLayout(area, counter, max);
            && l.area.size == (if Mapped(area) then area.value else 65536)
            && l.counter.size == (if Mapped(counter) then counter.value else 65536)
            && l.max.size == (if Mapped(max) then max.value else 8 * 512)
            && (Mapped(area) ==> l.area.segment == Shared && l.area.offset == 0)
            && (Mapped(counter) ==> l.counter.segment == Shared && l.counter.offset == Taken(area))
            && (Mapped(max) ==> l.max.segment == Shared && l.max.offset == Taken(area) + Taken(counter))
            && Disjoint(l.area, l.max) && Disjoint(l.counter, l.max)
            && (Disjoint(l.area, l.counter) <==> Mapped(area) || Mapped(counter))
            && (l.MaxSlots() > 0 <==> !(max.Some? && 1 <= max.value < 8))
            && forall k: nat :: k < Taken(area) + Taken(counter) + Taken(max) <==>
                 (l.area.Has(Shared, k) || l.counter.Has(Shared, k) || l.max.Has(Shared, k))
  {
    var l := MapLayout(area, counter, max);
    assert max.Some? && max.value >= 8 ==> max.value / SLOT_SIZE >= 1;
  }

  // ----- memory -----

  datatype Memory = Memory(areaInitial: seq<Byte>, maxInitial: seq<Byte>, shared: seq<Byte>)
  {
    function Get(s: Segment): seq<Byte>
    {
      match s
      case AreaInitial => areaInitial
      case MaxInitial => maxInitial
      case Shared => shared
    }

    function Put(s: Segment, bytes: seq<Byte>): (m: Memory)
      ensures forall t :: m.Get(t) == if t == s then bytes else Get(t)
    {
      match s
      case AreaInitial => this.(areaInitial := bytes)
      case MaxInitial => this.(maxInitial := bytes)
      case Shared => this.(shared := bytes)
    }

    predicate Fits(r: Region)
    {
      r.offset + r.size <= |Get(r.segment)|
    }
  }

  function Splice(s: seq<Byte>, at: nat, bytes: seq<Byte>): (r: seq<Byte>)
    requires at + |bytes| <= |s|
    ensures |r| == |s|
    ensures forall k :: 0 <= k < |s| ==> r[k] == if at <= k < at + |bytes| then bytes[k - at] else s[k]
  {
    s[..at] + bytes + s[at + |bytes|..]
  }

  function Write(m: Memory, r: Region, i: nat, bytes: seq<Byte>): (m': Memory)
    requires m.Fits(r) && i + |bytes| <= r.size
    ensures forall t :: |m'.Get(t)| == |m.Get(t)|
    ensures forall t, k :: 0 <= k < |m.Get(t)| && !(t == r.segment && r.offset + i <= k < r.offset + i + |bytes|) ==>
              m'.Get(t)[k] == m.Get(t)[k]
  {
    m.Put(r.segment, Splice(m.Get(r.segment), r.offset + i, bytes))
  }

  function Read(m: Memory, r: Region, i: nat, n: nat): seq<Byte>
    requires m.Fits(r) && i + n <= r.size
  {
    m.Get(r.segment)[r.offset + i..r.offset + i + n]
  }

  /** What was written is read back; anything that does not overlap is read as before. */
  lemma ReadWrite(m: Memory, r: Region, i: nat, bytes: seq<Byte>, q: Region, j: nat, n: nat)
    requires m.Fits(r) && i + |bytes| <= r.size
    requires m.Fits(q) && j + n <= q.size
    ensures Write(m, r, i, bytes).Fits(q)
    ensures q == r && j == i && n == |bytes| ==> Read(Write(m, r, i, bytes), q, j, n) == bytes
    ensures q.segment != r.segment || q.offset + j + n <= r.offset + i || r.offset + i + |bytes| <= q.offset + j ==>
              Read(Write(m, r, i, bytes), q, j, n) == Read(m, q, j, n)
  {
  }

  // ----- calls -----

  datatype Runtime = Runtime(layout: Layout, memory: Memory, registers: Registers)
  {
    /** Every index the runtime can form is inside its region. */
    predicate Ready()
    {
      && memory.Fits(layout.area) && memory.Fits(layout.counter) && memory.Fits(layout.max)
      && layout.counter.size > 0 && layout.MaxSlots() > 0
      && Disjoint(layout.counter, layout.max)
    }

    function Slot(i: nat): nat
      requires Ready() && i < layout.MaxSlots()
    {
      FromLE(Read(memory, layout.max, SLOT_SIZE * i, SLOT_SIZE))
    }

    function Counter(i: nat): Byte
      requires Ready() && i < layout.counter.size
    {
      memory.Get(layout.counter.segment)[layout.counter.offset + i]
    }
  }

  datatype Call =
    | State(call: StateCall)
    | Max(addr: nat, val: nat)
    | MinOf(addr: nat, val: nat)
    | Inc(addr: nat)
    | Set(addr: nat)
  {
    predicate Valid()
    {
      (Max? || MinOf? ==> addr < WORD32 && val < WORD64)
    }
  }

  /** The value a call offers to its max slot; `ijon_min` offers the complement. */
  function Offer(c: Call): nat
    requires (c.Max? || c.MinOf?) && c.Valid()
  {
    if c.Max? then c.val else WORD64 - 1 - c.val
  }

  function Raise(rt: Runtime, addr: nat, val: nat): Runtime
    requires rt.Ready()
  {
    var i := addr % rt.layout.MaxSlots();
    if rt.Slot(i) < val
    then rt.(memory := Write(rt.memory, rt.layout.max, SLOT_SIZE * i, ToLE(val, SLOT_SIZE)))
    else rt
  }

  function CounterIndex(rt: Runtime, addr: nat): (i: nat)
    requires rt.Ready()
    ensures i < rt.layout.counter.size
  {
    Xor(rt.registers.state, addr) % rt.layout.counter.size
  }

  function BumpCounter(b: Byte): Byte
  {
    (b + 1) % 256
  }

  /** b | 1 */
  function SetLowBit(b: Byte): Byte
  {
    if b % 2 == 0 then b + 1 else b
  }

  function Update(rt: Runtime, i: nat, b: Byte): Runtime
    requires rt.Ready() && i < rt.layout.counter.size
  {
    rt.(memory := Write(rt.memory, rt.layout.counter, i, [b]))
  }

  function Do(rt: Runtime, c: Call): Runtime
    requires rt.Ready() && c.Valid()
  {
    match c
    case State(call) => rt.(registers := Perform(rt.registers, call, rt.layout.counter.size))
    case Max(addr, val) => Raise(rt, addr, Offer(c))
    case MinOf(addr, val) => Raise(rt, addr, Offer(c))
    case Inc(addr) => var i := CounterIndex(rt, addr); Update(rt, i, BumpCounter(rt.Counter(i)))
    case Set(addr) => var i := CounterIndex(rt, addr); Update(rt, i, SetLowBit(rt.Counter(i)))
  }

  lemma DoKeepsReady(rt: Runtime, c: Call)
    requires rt.Ready() && c.Valid()
    ensures Do(rt, c).Ready() && Do(rt, c).layout == rt.layout
  {
  }

  predicate AllValid(cs: seq<Call>)
  {
    forall i :: 0 <= i < |cs| ==> cs[i].Valid()
  }

  function DoAll(rt: Runtime, cs: seq<Call>): (r: Runtime)
    requires rt.Ready() && AllValid(cs)
    ensures r.Ready() && r.layout == rt.layout
  {
    if cs == [] then rt
    else
      var m := DoAll(rt, cs[..|cs| - 1]);
      DoKeepsReady(m, cs[|cs| - 1]);
      Do(m, cs[|cs| - 1])
  }

  /** No byte outside the counter region and the max region ever changes. */
  lemma {:induction false} CallsStayInside(rt: Runtime, cs: seq<Call>, t: Segment, k: nat)
    requires rt.Ready() && AllValid(cs) && k < |rt.memory.Get(t)|
    requires !rt.layout.counter.Has(t, k) && !rt.layout.max.Has(t, k)
    ensures k < |DoAll(rt, cs).memory.Get(t)| && DoAll(rt, cs).memory.Get(t)[k] == rt.memory.Get(t)[k]
  {
    if cs != [] {
      CallsStayInside(rt, cs[..|cs| - 1], t, k);
      StepStaysInside(DoAll(rt, cs[..|cs| - 1]), cs[|cs| - 1], t, k);
    }
  }

  lemma StepStaysInside(rt: Runtime, c: Call, t: Segment, k: nat)
    requires rt.Ready() && c.Valid() && k < |rt.memory.Get(t)|
    requires !rt.layout.counter.Has(t, k) && !rt.layout.max.Has(t, k)
    ensures k < |Do(rt, c).memory.Get(t)| && Do(rt, c).memory.Get(t)[k] == rt.memory.Get(t)[k]
  {
    if c.Max? || c.MinOf? {
      var i := c.addr % rt.layout.MaxSlots();
      SlotInside(rt.layout, i);
    }
  }

  lemma SlotInside(l: Layout, i: nat)
    requires i < l.MaxSlots()
    ensures SLOT_SIZE * i + SLOT_SIZE <= l.max.size
  {
  }

  // ----- what the max slots hold -----

  predicate Targets(c: Call, i: nat, slots: nat)
    requires slots > 0
  {
    (c.Max? || c.MinOf?) && c.addr % slots == i
  }

  /** v is the greatest of the initial value and everything offered to slot i. */
  ghost predicate IsGreatest(v: nat, initial: nat, cs: seq<Call>, i: nat, slots: nat)
    requires slots > 0 && AllValid(cs)
  {
    && v >= initial
    && (forall j :: 0 <= j < |cs| && Targets(cs[j], i, slots) ==> v >= Offer(cs[j]))
    && (v == initial || exists j :: 0 <= j < |cs| && Targets(cs[j], i, slots) && v == Offer(cs[j]))
  }

  lemma RaiseSlot(rt: Runtime, addr: nat, val: nat, i: nat)
    requires rt.Ready() && i < rt.layout.MaxSlots() && val < WORD64
    ensures var r := Raise(rt, addr, val);
            && r.Ready() && r.layout == rt.layout && r.registers == rt.registers
            && r.Slot(i) == if addr % rt.layout.MaxSlots() == i && rt.Slot(i) < val then val else rt.Slot(i)
  {
    var j := addr % rt.layout.MaxSlots();
    var l := rt.layout.max;
    SlotInside(rt.layout, i);
    SlotInside(rt.layout, j);
    if rt.Slot(j) < val {
      ReadWrite(rt.memory, l, SLOT_SIZE * j, ToLE(val, SLOT_SIZE), l, SLOT_SIZE * i, SLOT_SIZE);
      Pow256Values();
      FromToLE(val, SLOT_SIZE);
      hide Read, Write, FromLE, ToLE;
    }
  }

  lemma UpdateKeepsSlots(rt: Runtime, k: nat, b: Byte, i: nat)
    requires rt.Ready() && k < rt.layout.counter.size && i < rt.layout.MaxSlots()
    ensures var r := Update(rt, k, b);
            r.Ready() && r.layout == rt.layout && r.registers == rt.registers && r.Slot(i) == rt.Slot(i)
  {
    SlotInside(rt.layout, i);
    ReadWrite(rt.memory, rt.layout.counter, k, [b], rt.layout.max, SLOT_SIZE * i, SLOT_SIZE);
  }

  lemma StepSlot(rt: Runtime, c: Call, i: nat)
    requires rt.Ready() && c.Valid() && i < rt.layout.MaxSlots()
    ensures Do(rt, c).Ready() && Do(rt, c).layout == rt.layout
    ensures Do(rt, c).Slot(i) ==
            if Targets(c, i, rt.layout.MaxSlots()) && rt.Slot(i) < Offer(c) then Offer(c) else rt.Slot(i)
  {
    DoKeepsReady(rt, c);
    if c.Max? || c.MinOf? {
      hide Raise;
      RaiseSlot(rt, c.addr, Offer(c), i);
    } else if c.Inc? {
      var k := CounterIndex(rt, c.addr);
      UpdateKeepsSlots(rt, k, BumpCounter(rt.Counter(k)), i);
    } else if c.Set? {
      var k := CounterIndex(rt, c.addr);
      UpdateKeepsSlots(rt, k, SetLowBit(rt.Counter(k)), i);
    }
  }

  /** After any calls, each slot holds the greatest of its initial value, the `ijon_max` values and
      the complemented `ijon_min` values addressed to it. */
  lemma {:induction false} SlotHoldsGreatest(rt: Runtime, cs: seq<Call>, i: nat)
    requires rt.Ready() && AllValid(cs) && i < rt.layout.MaxSlots()
    ensures IsGreatest(DoAll(rt, cs).Slot(i), rt.Slot(i), cs, i, rt.layout.MaxSlots())
  {
    if cs != [] {
      var n := |cs| - 1;
      SlotHoldsGreatest(rt, cs[..n], i);
      var m := DoAll(rt, cs[..n]);
      StepSlot(m, cs[n], i);
      GreatestExtends(m.Slot(i), DoAll(rt, cs).Slot(i), rt.Slot(i), cs, i, rt.layout.MaxSlots());
    }
  }

  lemma GreatestExtends(v: nat, v': nat, initial: nat, cs: seq<Call>, i: nat, slots: nat)
    requires slots > 0 && AllValid(cs) && cs != []
    requires IsGreatest(v, initial, cs[..|cs| - 1], i, slots)
    requires var c := cs[|cs| - 1];
             v' == if Targets(c, i, slots) && v < Offer(c) then Offer(c) else v
    ensures IsGreatest(v', initial, cs, i, slots)
  {
    var n := |cs| - 1;
    assert forall j :: 0 <= j < n ==> cs[..n][j] == cs[j];
    if v' == v && v != initial {
      var j :| 0 <= j < n && Targets(cs[..n][j], i, slots) && v == Offer(cs[..n][j]);
      assert Targets(cs[j], i, slots);
    } else if v' != v {
      assert Targets(cs[n], i, slots);
    }
  }

  lemma GreatestIsUnique(v: nat, w: nat, initial: nat, cs: seq<Call>, ds: seq<Call>, i: nat, slots: nat)
    requires slots > 0 && AllValid(cs) && AllValid(ds)
    requires IsGreatest(v, initial, cs, i, slots) && IsGreatest(w, initial, ds, i, slots)
    requires forall j :: 0 <= j < |cs| && Targets(cs[j], i, slots) ==> cs[j] in ds
    ensures v <= w
  {
    if v != initial {
      var j :| 0 <= j < |cs| && Targets(cs[j], i, slots) && v == Offer(cs[j]);
      var k :| 0 <= k < |ds| && ds[k] == cs[j];
      assert Targets(ds[k], i, slots);
    }
  }

  /** Neither the order nor the repetition of calls matters to the max slots. */
  lemma SlotsIgnoreOrder(rt: Runtime, cs: seq<Call>, ds: seq<Call>, i: nat)
    requires rt.Ready() && AllValid(cs) && AllValid(ds) && i < rt.layout.MaxSlots()
    requires forall c :: c in cs <==> c in ds
    ensures DoAll(rt, cs).Slot(i) == DoAll(rt, ds).Slot(i)
  {
    var slots := rt.layout.MaxSlots();
    SlotHoldsGreatest(rt, cs, i);
    SlotHoldsGreatest(rt, ds, i);
    hide *;
    GreatestIsUnique(DoAll(rt, cs).Slot(i), DoAll(rt, ds).Slot(i), rt.Slot(i), cs, ds, i, slots);
    GreatestIsUnique(DoAll(rt, ds).Slot(i), DoAll(rt, cs).Slot(i), rt.Slot(i), ds, cs, i, slots);
  }

  /** A slot that only `ijon_min` addresses and that starts at zero holds the complement of the
      smallest value given. */
  lemma SlotHoldsSmallest(rt: Runtime, cs: seq<Call>, i: nat)
    requires rt.Ready() && AllValid(cs) && i < rt.layout.MaxSlots() && rt.Slot(i) == 0
    requires forall j :: 0 <= j < |cs| && Targets(cs[j], i, rt.layout.MaxSlots()) ==> cs[j].MinOf?
    requires exists j :: 0 <= j < |cs| && Targets(cs[j], i, rt.layout.MaxSlots())
    ensures var smallest := WORD64 - 1 - DoAll(rt, cs).Slot(i);
            && (forall j :: 0 <= j < |cs| && Targets(cs[j], i, rt.layout.MaxSlots()) ==> smallest <= cs[j].val)
            && exists j :: 0 <= j < |cs| && Targets(cs[j], i, rt.layout.MaxSlots()) && cs[j].val == smallest
  {
    SlotHoldsGreatest(rt, cs, i);
    hide DoAll;
    var v := DoAll(rt, cs).Slot(i);
    var j :| 0 <= j < |cs| && Targets(cs[j], i, rt.layout.MaxSlots());
    assert v >= Offer(cs[j]);
  }

  // ----- what the counters hold -----

  /** The registers never depend on the maps, so the state theorems hold between map calls too. */
  function StateCalls(cs: seq<Call>): seq<StateCall>
  {
    if cs == [] then []
    else
      var c := cs[|cs| - 1];
      StateCalls(cs[..|cs| - 1]) + (if c.State? then [c.call] else [])
  }

  lemma StepRegisters(rt: Runtime, c: Call)
    requires rt.Ready() && c.Valid()
    ensures Do(rt, c).registers ==
            if c.State? then Perform(rt.registers, c.call, rt.layout.counter.size) else rt.registers
  {
  }

  lemma {:induction false} RegistersIgnoreMaps(rt: Runtime, cs: seq<Call>)
    requires rt.Ready() && AllValid(cs)
    ensures DoAll(rt, cs).registers == PerformAll(rt.registers, StateCalls(cs), rt.layout.counter.size)
  {
    if cs != [] {
      var n := |cs| - 1;
      RegistersIgnoreMaps(rt, cs[..n]);
      var before := StateCalls(cs[..n]);
      StepRegisters(DoAll(rt, cs[..n]), cs[n]);
      assert DoAll(rt, cs) == Do(DoAll(rt, cs[..n]), cs[n]);
      hide Do, DoAll, Perform;
      if cs[n].State? {
        assert (before + [cs[n].call])[..|before|] == before;
      } else {
        assert before + [] == before;
      }
    }
  }

  /** How often `ijon_map_inc` met counter i, told from the calls alone. */
  function Hits(r: Registers, cs: seq<Call>, i: nat, size: nat): nat
    requires size > 0
  {
    if cs == [] then 0
    else
      var n := |cs| - 1;
      Hits(r, cs[..n], i, size) +
      (if cs[n].Inc? && Xor(PerformAll(r, StateCalls(cs[..n]), size).state, cs[n].addr) % size == i then 1 else 0)
  }

  /** No `ijon_map_set` met counter i. */
  ghost predicate SetsMiss(r: Registers, cs: seq<Call>, i: nat, size: nat)
    requires size > 0
  {
    forall j :: 0 <= j < |cs| && cs[j].Set? ==>
      Xor(PerformAll(r, StateCalls(cs[..j]), size).state, cs[j].addr) % size != i
  }

  lemma MaxWriteKeepsCounter(rt: Runtime, at: nat, bytes: seq<Byte>, i: nat)
    requires rt.Ready() && i < rt.layout.counter.size && at + |bytes| <= rt.layout.max.size
    ensures var r := rt.(memory := Write(rt.memory, rt.layout.max, at, bytes));
            r.Ready() && r.Counter(i) == rt.Counter(i)
  {
    var m', k := Write(rt.memory, rt.layout.max, at, bytes), rt.layout.counter.offset + i;
    hide Write, Splice;
    assert m'.Get(rt.layout.counter.segment)[k] == rt.memory.Get(rt.layout.counter.segment)[k];
  }

  lemma RaiseKeepsCounters(rt: Runtime, addr: nat, val: nat, i: nat)
    requires rt.Ready() && i < rt.layout.counter.size
    ensures var r := Raise(rt, addr, val);
            r.Ready() && r.layout == rt.layout && r.Counter(i) == rt.Counter(i)
  {
    var j := addr % rt.layout.MaxSlots();
    SlotInside(rt.layout, j);
    hide Write, Splice, ToLE, FromLE, Read;
    MaxWriteKeepsCounter(rt, SLOT_SIZE * j, ToLE(val, SLOT_SIZE), i);
  }

  lemma StepCounter(rt: Runtime, c: Call, i: nat)
    requires rt.Ready() && c.Valid() && i < rt.layout.counter.size
    requires c.Set? ==> CounterIndex(rt, c.addr) != i
    ensures Do(rt, c).Ready() && Do(rt, c).layout == rt.layout
    ensures Do(rt, c).Counter(i) ==
            if c.Inc? && CounterIndex(rt, c.addr) == i then BumpCounter(rt.Counter(i)) else rt.Counter(i)
  {
    DoKeepsReady(rt, c);
    if c.Max? || c.MinOf? {
      hide Raise;
      RaiseKeepsCounters(rt, c.addr, Offer(c), i);
    }
  }

  lemma CounterStep(rt: Runtime, c: Call, i: nat, v: nat)
    requires rt.Ready() && c.Valid() && i < rt.layout.counter.size && rt.Counter(i) == v % 256
    requires c.Set? ==> CounterIndex(rt, c.addr) != i
    ensures Do(rt, c).Ready() && Do(rt, c).layout == rt.layout
    ensures Do(rt, c).Counter(i) == (v + (if c.Inc? && CounterIndex(rt, c.addr) == i then 1 else 0)) % 256
  {
    hide Do, CounterIndex;
    StepCounter(rt, c, i);
    assert (v % 256 + 1) % 256 == (v + 1) % 256;
  }

  /** As long as no `ijon_map_set` meets it, a counter is its initial value plus its hits, modulo
      256; max and min calls, and calls that meet other counters, never disturb it. */
  lemma {:induction false} CounterCountsHits(rt: Runtime, cs: seq<Call>, i: nat)
    requires rt.Ready() && AllValid(cs) && i < rt.layout.counter.size
    requires SetsMiss(rt.registers, cs, i, rt.layout.counter.size)
    ensures DoAll(rt, cs).Counter(i) == (rt.Counter(i) + Hits(rt.registers, cs, i, rt.layout.counter.size)) % 256
  {
    hide Do, CounterIndex, Runtime.Counter, Runtime.Ready, PerformAll, StateCalls;
    if cs != [] {
      var n, size := |cs| - 1, rt.layout.counter.size;
      SetsMissBefore(rt.registers, cs, i, size);
      CounterCountsHits(rt, cs[..n], i);
      if cs[n].Inc? || cs[n].Set? {
        IndexFromCalls(rt, cs[..n], cs[n]);
      }
      CounterStep(DoAll(rt, cs[..n]), cs[n], i, rt.Counter(i) + Hits(rt.registers, cs[..n], i, size));
    } else {
      CounterIsByte(rt, i);
    }
  }

  lemma SetsMissBefore(r: Registers, cs: seq<Call>, i: nat, size: nat)
    requires size > 0 && cs != [] && SetsMiss(r, cs, i, size)
    ensures SetsMiss(r, cs[..|cs| - 1], i, size)
    ensures var c := cs[|cs| - 1];
            c.Set? ==> Xor(PerformAll(r, StateCalls(cs[..|cs| - 1]), size).state, c.addr) % size != i
  {
    var before := cs[..|cs| - 1];
    assert forall j :: 0 <= j < |before| ==> before[j] == cs[j] && before[..j] == cs[..j];
    hide PerformAll, StateCalls;
  }

  lemma IndexFromCalls(rt: Runtime, cs: seq<Call>, c: Call)
    requires rt.Ready() && AllValid(cs) && (c.Inc? || c.Set?)
    ensures CounterIndex(DoAll(rt, cs), c.addr) ==
            Xor(PerformAll(rt.registers, StateCalls(cs), rt.layout.counter.size).state, c.addr) % rt.layout.counter.size
  {
    RegistersIgnoreMaps(rt, cs);
  }

  lemma CounterIsByte(rt: Runtime, i: nat)
    requires rt.Ready() && i < rt.layout.counter.size
    ensures rt.Counter(i) % 256 == rt.Counter(i)
  {
  }

  /** An increment bumps one counter: the one numbered by address and state. */
  lemma IncBumpsOne(rt: Runtime, addr: nat, i: nat)
    requires rt.Ready() && i < rt.layout.counter.size
    ensures Do(rt, Inc(addr)).Ready() && Do(rt, Inc(addr)).layout == rt.layout
    ensures Do(rt, Inc(addr)).Counter(i) ==
            if Xor(rt.registers.state, addr) % rt.layout.counter.size == i then (rt.Counter(i) + 1) % 256
            else rt.Counter(i)
  {
    StepCounter(rt, Inc(addr), i);
    hide Do, Runtime.Counter, Runtime.Ready, Xor;
  }

  lemma DifferentStates(s: nat, t: nat, addr: nat, k: nat)
    requires s < Pow2(k) && t < Pow2(k) && s != t
    ensures Xor(s, addr) % Pow2(k) != Xor(t, addr) % Pow2(k)
  {
    ShrLowIsDivMod(Xor(s, addr), k);
    ShrLowIsDivMod(Xor(t, addr), k);
    XorLow(s, addr, k);
    XorLow(t, addr, k);
    LowBelow(s, k);
    LowBelow(t, k);
    XorCancel(s, Low(addr, k));
    XorCancel(t, Low(addr, k));
  }

  /** With 2^k counters, the same address meets different counters in different states, which is what
      the state is for. */
  lemma StatesMeetDifferentCounters(rt: Runtime, t: nat, addr: nat, k: nat, i: nat)
    requires rt.Ready() && i < rt.layout.counter.size == Pow2(k)
    requires rt.registers.state < Pow2(k) && t < Pow2(k) && t != rt.registers.state
    ensures var rt' := rt.(registers := rt.registers.(state := t));
            && rt'.Ready() && rt'.Counter(i) == rt.Counter(i)
            && Do(rt, Inc(addr)).Ready() && Do(rt, Inc(addr)).layout == rt.layout
            && Do(rt', Inc(addr)).Ready() && Do(rt', Inc(addr)).layout == rt.layout
            && (Do(rt, Inc(addr)).Counter(i) == rt.Counter(i) || Do(rt', Inc(addr)).Counter(i) == rt.Counter(i))
  {
    var rt' := rt.(registers := rt.registers.(state := t));
    assert rt'.Ready() && rt'.Counter(i) == rt.Counter(i);
    hide *;
    IncBumpsOne(rt, addr, i);
    IncBumpsOne(rt', addr, i);
    DifferentStates(rt.registers.state, t, addr, k);
  }

  lemma SharedXorCancels(s: nat, addr: nat, h: nat, k: nat)
    ensures Pow2(k) > 0 && Xor(Xor(s, h) % Pow2(k), Xor(addr, h)) % Pow2(k) == Xor(s, addr) % Pow2(k)
  {
    hide Xor, Low, Pow2;
    ShrLowIsDivMod(Xor(s, h), k);
    ShrLowIsDivMod(Xor(Low(Xor(s, h), k), Xor(addr, h)), k);
    ShrLowIsDivMod(Xor(s, addr), k);
    XorLowAbsorbs(Xor(s, h), Xor(addr, h), k);
    XorSwap(s, h, addr, h);
    XorSelf(h);
    XorZero(Xor(s, addr));
  }

  lemma XorEffect(rt: Runtime, h: nat, i: nat)
    requires rt.Ready() && i < rt.layout.counter.size
    ensures var rt' := Do(rt, State(CallXor(h)));
            && rt'.Ready() && rt'.layout == rt.layout && rt'.Counter(i) == rt.Counter(i)
            && rt'.registers.state == Xor(rt.registers.state, h) % rt.layout.counter.size
  {
    hide Xor;
  }

  /** With 2^k counters, xoring the same value into state and address meets the same counter. */
  lemma SharedXorMeetsSameCounter(rt: Runtime, addr: nat, h: nat, k: nat, i: nat)
    requires rt.Ready() && i < rt.layout.counter.size == Pow2(k)
    ensures var rt' := Do(rt, State(CallXor(h)));
            && rt'.Ready() && rt'.layout == rt.layout
            && Do(rt, Inc(addr)).Ready() && Do(rt, Inc(addr)).layout == rt.layout
            && Do(rt', Inc(Xor(addr, h))).Ready() && Do(rt', Inc(Xor(addr, h))).layout == rt.layout
            && Do(rt', Inc(Xor(addr, h))).Counter(i) == Do(rt, Inc(addr)).Counter(i)
  {
    var rt' := Do(rt, State(CallXor(h)));
    hide *;
    XorEffect(rt, h, i);
    IncBumpsOne(rt, addr, i);
    IncBumpsOne(rt', Xor(addr, h), i);
    SharedXorCancels(rt.registers.state, addr, h, k);
  }

  /** `ijon_map_set` sets the low bit of the addressed counter, keeps its other bits and touches no
      other counter and no slot. */
  lemma SetMarksCounter(rt: Runtime, addr: nat, i: nat, j: nat)
    requires rt.Ready() && i < rt.layout.counter.size && j < rt.layout.MaxSlots()
    ensures var r := Do(rt, Set(addr));
            && r.Ready() && r.layout == rt.layout && r.registers == rt.registers && r.Slot(j) == rt.Slot(j)
            && r.Counter(i) / 2 == rt.Counter(i) / 2
            && r.Counter(i) % 2 ==
               if Xor(rt.registers.state, addr) % rt.layout.counter.size == i then 1 else rt.Counter(i) % 2
  {
    var k := Xor(rt.registers.state, addr) % rt.layout.counter.size;
    assert Do(rt, Set(addr)) == Update(rt, k, SetLowBit(rt.Counter(k)));
    hide Do, CounterIndex, Update, SetLowBit, Runtime.Slot, Runtime.Counter, Runtime.Ready, Xor;
    UpdateKeepsSlots(rt, k, SetLowBit(rt.Counter(k)), j);
    UpdateCounter(rt, k, SetLowBit(rt.Counter(k)), i);
    SetLowBitOnly(rt.Counter(i));
  }

  lemma UpdateCounter(rt: Runtime, k: nat, b: Byte, i: nat)
    requires rt.Ready() && k < rt.layout.counter.size && i < rt.layout.counter.size
    ensures Update(rt, k, b).Ready() && Update(rt, k, b).layout == rt.layout
    ensures Update(rt, k, b).Counter(i) == if i == k then b else rt.Counter(i)
  {
  }

  lemma SetLowBitOnly(b: Byte)
    ensures SetLowBit(b) / 2 == b / 2 && SetLowBit(b) % 2 == 1
  {
  }

  lemma {:induction false} StateCallsAppend(a: seq<Call>, b: seq<Call>)
    ensures StateCalls(a + b) == StateCalls(a) + StateCalls(b)
  {
    if b == [] {
      assert a + b == a;
    } else {
      assert (a + b)[..|a + b| - 1] == a + b[..|b| - 1];
      StateCallsAppend(a, b[..|b| - 1]);
    }
  }

  /** What one IJON_CTX runs: its hash, the argument's calls, its hash. */
  function Around(hash: nat, body: seq<Call>): seq<Call>
  {
    [State(CallXor(hash))] + body + [State(CallXor(hash))]
  }

  lemma AroundValid(hash: nat, body: seq<Call>)
    requires AllValid(body)
    ensures AllValid(Around(hash, body))
  {
  }

  lemma AroundStateCalls(hash: nat, body: seq<Call>)
    ensures StateCalls(Around(hash, body)) == [CallXor(hash)] + StateCalls(body) + [CallXor(hash)]
  {
    var x := [State(CallXor(hash))];
    assert x[..0] == [] && StateCalls(x) == [] + [CallXor(hash)] == [CallXor(hash)];
    hide StateCalls;
    StateCallsAppend(x, body);
    StateCallsAppend(x + body, x);
  }

  lemma ContextRegisters(rt: Runtime, hash: nat, body: seq<Call>, k: nat)
    requires rt.Ready() && AllValid(body) && AllValid(Around(hash, body))
    requires rt.layout.counter.size == Pow2(k) && rt.registers.state < Pow2(k)
    ensures DoAll(rt, Around(hash, body)).registers == DoAll(rt, body).registers
  {
    hide *;
    AroundStateCalls(hash, body);
    RegistersIgnoreMaps(rt, body);
    RegistersIgnoreMaps(rt, Around(hash, body));
    ContextIsTransparent(rt.registers, hash, StateCalls(body), k);
  }

  lemma ContextSlots(rt: Runtime, hash: nat, body: seq<Call>, i: nat)
    requires rt.Ready() && AllValid(body) && AllValid(Around(hash, body)) && i < rt.layout.MaxSlots()
    ensures DoAll(rt, Around(hash, body)).Slot(i) == DoAll(rt, body).Slot(i)
  {
    var cs, slots := Around(hash, body), rt.layout.MaxSlots();
    AroundTargets(hash, body, i, slots);
    hide *;
    SlotHoldsGreatest(rt, cs, i);
    SlotHoldsGreatest(rt, body, i);
    GreatestIsUnique(DoAll(rt, cs).Slot(i), DoAll(rt, body).Slot(i), rt.Slot(i), cs, body, i, slots);
    GreatestIsUnique(DoAll(rt, body).Slot(i), DoAll(rt, cs).Slot(i), rt.Slot(i), body, cs, i, slots);
  }

  /** A context around any runtime calls, with 2^k counters and a state below that, leaves the
      registers and the max slots as the calls alone would; only the counters they meet differ. */
  lemma ContextAroundCalls(rt: Runtime, hash: nat, body: seq<Call>, k: nat, i: nat)
    requires rt.Ready() && AllValid(body) && i < rt.layout.MaxSlots()
    requires rt.layout.counter.size == Pow2(k) && rt.registers.state < Pow2(k)
    ensures AllValid(Around(hash, body))
    ensures DoAll(rt, Around(hash, body)).registers == DoAll(rt, body).registers
    ensures DoAll(rt, Around(hash, body)).Slot(i) == DoAll(rt, body).Slot(i)
  {
    AroundValid(hash, body);
    hide *;
    ContextRegisters(rt, hash, body, k);
    ContextSlots(rt, hash, body, i);
  }

  lemma AroundTargets(hash: nat, body: seq<Call>, i: nat, slots: nat)
    requires slots > 0
    ensures forall j :: 0 <= j < |Around(hash, body)| && Targets(Around(hash, body)[j], i, slots) ==>
              Around(hash, body)[j] in body
    ensures forall j :: 0 <= j < |body| && Targets(body[j], i, slots) ==> body[j] in Around(hash, body)
  {
    var cs := Around(hash, body);
    assert forall j :: 0 <= j < |body| ==> cs[j + 1] == body[j];
    assert forall j :: 0 < j < |cs| - 1 ==> cs[j] == body[j - 1];
    assert cs[0] == State(CallXor(hash)) == cs[|cs| - 1];
  }
}
