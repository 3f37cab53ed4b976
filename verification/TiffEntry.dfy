/** The TIFF directory reader: entries are converted in place inside the segment buffer, then their
    values are decoded from the entry or from elsewhere in the buffer. Layout as in TIFF 6.0 section 2. */
module TiffEntry {
  import opened Bits
  import opened ByteOrder
  import opened Prelude

  const ENTRY_SIZE: nat := 12
  const ASCII: nat := 2
  const RATIONAL: nat := 5
  const SRATIONAL: nat := 10
  const DOUBLE: nat := 12

  predicate IsType(t: nat)
  {
    1 <= t <= DOUBLE
  }

  /** Bytes per counted unit. */
  function UnitSize(t: nat): (r: nat)
    requires IsType(t)
    ensures r == 1 || r == 2 || r == 4 || r == 8
  {
    [0, 1, 1, 2, 4, 8, 1, 1, 2, 4, 8, 4, 8][t]
  }

  /** The size in bytes as a 32-bit product. */
  function Size32(t: nat, count: nat): nat
    requires IsType(t)
  {
    (UnitSize(t) * count) % WORD32
  }

  predicate IsRational(t: nat)
  {
    t == RATIONAL || t == SRATIONAL
  }

  /** Bytes per number stored: a rational is two numbers of four bytes. */
  function Width(t: nat): (r: nat)
    requires IsType(t)
    ensures r == 1 || r == 2 || r == 4 || r == 8
  {
    if IsRational(t) then 4 else UnitSize(t)
  }

  /** Numbers stored for a given count. */
  function Numbers(t: nat, count: nat): nat
    requires IsType(t)
  {
    if IsRational(t) then 2 * count else count
  }

  datatype TiffData = TiffData(type_: nat, count: nat, values: seq<nat>)

  /** `Undefined` stands for a read outside the buffer, where the C code has no defined result. */
  datatype Result = BadType | OutOfBounds | Undefined | Decoded(data: TiffData)

  // ----- bytes -----

  function Slice(s: seq<Byte>, at: nat, n: nat): (r: seq<Byte>)
    requires at + n <= |s|
    ensures |r| == n
  {
    s[at..at + n]
  }

  function Load(s: seq<Byte>, at: nat, n: nat): nat
    requires at + n <= |s|
  {
    FromLE(Slice(s, at, n))
  }

  /** One number, swapped when the file is big-endian. */
  function LoadValue(s: seq<Byte>, at: nat, width: nat, big: bool): nat
    requires at + width <= |s|
  {
    var v := Load(s, at, width);
    if !big then v
    else if width == 2 then Swap16(v)
    else if width == 4 then Swap32(v)
    else if width == 8 then Swap64(v)
    else v
  }

  /** n * width, added up. */
  function Span(n: nat, width: nat): nat
  {
    if n == 0 then 0 else Span(n - 1, width) + width
  }

  lemma {:induction false} SpanIsProduct(n: nat, width: nat)
    ensures Span(n, width) == n * width
  {
    if n > 0 {
      SpanIsProduct(n - 1, width);
      assert (n - 1) * width + width == n * width;
    }
  }

  function LoadValues(s: seq<Byte>, at: nat, width: nat, n: nat, big: bool): (r: seq<nat>)
    requires at + Span(n, width) <= |s|
    ensures |r| == n
  {
    if n == 0 then []
    else LoadValues(s, at, width, n - 1, big) + [LoadValue(s, at + Span(n - 1, width), width, big)]
  }

  /** The values up to and including the first NUL. */
  function CString(vs: seq<nat>): seq<nat>
  {
    if vs == [] || vs[0] == 0 then vs[..Min(1, |vs|)] else [vs[0]] + CString(vs[1..])
  }

  /** A field of n bytes reversed in place, which is what storing the swapped value does. */
  function SwapField(s: seq<Byte>, at: nat, n: nat): (r: seq<Byte>)
    requires at + n <= |s|
    ensures |r| == |s|
  {
    s[..at] + Reversed(Slice(s, at, n)) + s[at + n..]
  }

  /** An entry's four fields converted in place. */
  function ConvertEntry(s: seq<Byte>, pos: nat): (r: seq<Byte>)
    requires pos + ENTRY_SIZE <= |s|
    ensures |r| == |s|
  {
    SwapField(SwapField(SwapField(SwapField(s, pos, 2), pos + 2, 2), pos + 4, 4), pos + 8, 4)
  }

  // ----- decoding -----

  /** Copying the values from a source position. */
  function Collect(s: seq<Byte>, src: nat, t: nat, count: nat, big: bool): Result
    requires IsType(t)
  {
    if t == ASCII then
      var available := if src > |s| then 0 else Min(count, |s| - src);
      SpanIsProduct(available, 1);
      var text := if src > |s| then [] else LoadValues(s, src, 1, available, big);
      if available == count || 0 in text then Decoded(TiffData(t, count, CString(text))) else Undefined
    else if src + Span(Numbers(t, count), Width(t)) > |s| then Undefined
    else Decoded(TiffData(t, count, LoadValues(s, src, Width(t), Numbers(t, count), big)))
  }

  /** An entry whose fields are already converted; small values are read from the offset field, which
      is swapped back first. The second result is the buffer afterwards. */
  function ReadEntry(s: seq<Byte>, pos: nat, big: bool, len: nat): (r: (Result, seq<Byte>))
    requires pos + ENTRY_SIZE <= |s|
    ensures |r.1| == |s|
  {
    var t, count, offset := Load(s, pos + 2, 2), Load(s, pos + 4, 4), Load(s, pos + 8, 4);
    if !IsType(t) then (BadType, s)
    else
      var size := Size32(t, count);
      if size <= 4 then
        var s' := if big then SwapField(s, pos + 8, 4) else s;
        (Collect(s', pos + 8, t, count, big), s')
      else if (offset + size) % WORD32 > len then (OutOfBounds, s)
      else (Collect(s, offset, t, count, big), s)
  }

  function ConvertAndRead(s: seq<Byte>, pos: nat, big: bool, len: nat): (r: (Result, seq<Byte>))
    requires pos + ENTRY_SIZE <= |s|
    ensures |r.1| == |s|
  {
    ReadEntry(if big then ConvertEntry(s, pos) else s, pos, big, len)
  }

  // ----- encoding -----

  /** The numbers one after the other, in a byte order. */
  function Encoded(vs: seq<nat>, width: nat, big: bool): (s: seq<Byte>)
    ensures |s| == Span(|vs|, width)
  {
    if vs == [] then [] else Encoded(vs[..|vs| - 1], width, big) + Number(vs[|vs| - 1], width, big)
  }

  /** A directory entry as its writer means it; the offset and the padding are used by entries whose
      values do not, respectively do, fit into four bytes. */
  datatype Entry = Entry(tag: nat, type_: nat, count: nat, values: seq<nat>, offset: nat, padding: seq<Byte>)
  {
    function Size(): nat
      requires IsType(type_)
    {
      UnitSize(type_) * count
    }

    predicate Inline()
      requires IsType(type_)
    {
      Size() <= 4
    }

    predicate Valid()
    {
      && tag < 0x1_0000 && IsType(type_) && count < WORD32 && offset < WORD32
      && |values| == Numbers(type_, count) && AllBelow(values, Width(type_))
      && (Inline() ==> |padding| == 4 - Size())
    }

    /** What a reader should get: strings end at their NUL. */
    function Meaning(): TiffData
    {
      TiffData(type_, count, if type_ == ASCII then CString(values) else values)
    }
  }

  predicate AllBelow(vs: seq<nat>, width: nat)
  {
    forall i :: 0 <= i < |vs| ==> vs[i] < Pow256(width)
  }

  lemma SizeIsSpan(e: Entry)
    requires IsType(e.type_) && |e.values| == Numbers(e.type_, e.count)
    ensures e.Size() == Span(|e.values|, Width(e.type_))
  {
    SpanIsProduct(|e.values|, Width(e.type_));
  }

  function ValueField(e: Entry, big: bool): (s: seq<Byte>)
    requires e.Valid()
    ensures |s| == 4
  {
    SizeIsSpan(e);
    if e.Inline() then Encoded(e.values, Width(e.type_), big) + e.padding else Number(e.offset, 4, big)
  }

  function EntryBytes(e: Entry, big: bool): (s: seq<Byte>)
    requires e.Valid()
    ensures |s| == ENTRY_SIZE
  {
    Number(e.tag, 2, big) + (Number(e.type_, 2, big) + (Number(e.count, 4, big) + ValueField(e, big)))
  }

  /** The entry stands at pos; values too long for it stand at its offset, within the first len bytes
      and clear of the directory, which takes the bytes from `from` to `to`. */
  predicate Stored(s: seq<Byte>, pos: nat, e: Entry, big: bool, len: nat, from: nat, to: nat)
  {
    && e.Valid() && At(s, pos, EntryBytes(e, big)) && from <= pos && pos + ENTRY_SIZE <= to
    && (!e.Inline() ==>
          && e.offset + e.Size() <= len < WORD32
          && At(s, e.offset, Encoded(e.values, Width(e.type_), big))
          && (e.offset + e.Size() <= from || to <= e.offset))
  }

  /** The 64-bit routine keeps a number when its third and fourth byte are zero. */
  predicate KeptBySwap64(v: nat)
  {
    ToLE(v, 8)[2] == 0 && ToLE(v, 8)[3] == 0
  }

  /** No damage is done: always, except to big-endian doubles with those bytes set. */
  predicate Survives(vs: seq<nat>, width: nat, big: bool)
  {
    big && width == 8 ==> forall i :: 0 <= i < |vs| ==> KeptBySwap64(vs[i])
  }

  // ----- loading what was encoded -----

  lemma LoadAt(s: seq<Byte>, at: nat, bytes: seq<Byte>)
    requires At(s, at, bytes)
    ensures Load(s, at, |bytes|) == FromLE(bytes)
  {
  }

  lemma LoadLittle(s: seq<Byte>, at: nat, v: nat, n: nat)
    requires At(s, at, Number(v, n, false)) && v < Pow256(n)
    ensures Load(s, at, n) == v
  {
    LoadAt(s, at, Number(v, n, false));
    FromToLE(v, n);
  }

  lemma Swap64Keeps(v: nat)
    requires v < Pow256(8)
    ensures Swap64(FromLE(Number(v, 8, true))) == v <==> KeptBySwap64(v)
  {
    var b := Number(v, 8, true);
    FromToLE(v, 8);
    ReversedTwice(ToLE(v, 8));
    assert b[5] == ToLE(v, 8)[2] && b[4] == ToLE(v, 8)[3];
    hide *;
    Swap64ReversesIff(b);
  }

  /** A number loads as itself, with the one exception. */
  lemma LoadsOne(s: seq<Byte>, at: nat, v: nat, width: nat, big: bool)
    requires width == 1 || width == 2 || width == 4 || width == 8
    requires v < Pow256(width) && At(s, at, Number(v, width, big))
    ensures LoadValue(s, at, width, big) == v <==> (big && width == 8 ==> KeptBySwap64(v))
  {
    LoadAt(s, at, Number(v, width, big));
    assert Pow256(1) == 0x100 && Pow256(2) == 0x1_0000 && Pow256(3) == 0x100_0000;
    assert Pow256(4) == WORD32;
    hide Swap16, Swap32, Swap64, KeptBySwap64, Load, At;
    if !big {
      FromToLE(v, width);
    } else if width == 8 {
      Swap64Keeps(v);
    } else if width == 1 {
      FromToLE(v, 1);
      assert Reversed(ToLE(v, 1)) == ToLE(v, 1);
    } else {
      LoadsNumber(v, big);
    }
  }

  lemma LastEncoded(s: seq<Byte>, at: nat, vs: seq<nat>, width: nat, big: bool)
    requires vs != [] && At(s, at, Encoded(vs, width, big))
    ensures var n := |vs| - 1;
            && At(s, at, Encoded(vs[..n], width, big))
            && At(s, at + Span(n, width), Number(vs[n], width, big))
            && at + Span(|vs|, width) <= |s| && Span(|vs|, width) == Span(n, width) + width
  {
    hide *;
    EncodedLast(vs, width, big);
    AtSplit(s, at, Encoded(vs[..|vs| - 1], width, big), Number(vs[|vs| - 1], width, big));
    AtFits(s, at, Encoded(vs, width, big));
  }

  lemma EncodedLast(vs: seq<nat>, width: nat, big: bool)
    requires vs != []
    ensures var n := |vs| - 1;
            && Encoded(vs, width, big) == Encoded(vs[..n], width, big) + Number(vs[n], width, big)
            && Span(|vs|, width) == Span(n, width) + width
  {
    hide Number;
  }

  lemma SurvivesSplits(vs: seq<nat>, width: nat, big: bool)
    requires vs != []
    ensures Survives(vs, width, big) <==>
            Survives(vs[..|vs| - 1], width, big) && (big && width == 8 ==> KeptBySwap64(vs[|vs| - 1]))
    ensures AllBelow(vs, width) ==> AllBelow(vs[..|vs| - 1], width) && vs[|vs| - 1] < Pow256(width)
  {
    hide KeptBySwap64, Pow256;
    var n := |vs| - 1;
    assert forall i :: 0 <= i < n ==> vs[..n][i] == vs[i];
  }

  lemma SameLast(a: seq<nat>, x: nat, vs: seq<nat>)
    requires vs != [] && |a| == |vs| - 1
    ensures a + [x] == vs <==> a == vs[..|vs| - 1] && x == vs[|vs| - 1]
  {
    assert (a + [x])[..|a|] == a && (a + [x])[|a|] == x;
    assert vs[..|vs| - 1] + [vs[|vs| - 1]] == vs;
  }

  /** Encoded numbers load as themselves exactly when they survive. */
  lemma {:induction false} LoadsAll(s: seq<Byte>, at: nat, vs: seq<nat>, width: nat, big: bool)
    requires width == 1 || width == 2 || width == 4 || width == 8
    requires AllBelow(vs, width) && At(s, at, Encoded(vs, width, big))
    ensures at + Span(|vs|, width) <= |s|
    ensures LoadValues(s, at, width, |vs|, big) == vs <==> Survives(vs, width, big)
  {
    hide *;
    if vs == [] {
      LoadsNone(s, at, width, big);
    } else {
      var n := |vs| - 1;
      LastEncoded(s, at, vs, width, big);
      SurvivesSplits(vs, width, big);
      LoadsAll(s, at, vs[..n], width, big);
      LoadsOne(s, at + Span(n, width), vs[n], width, big);
      LoadsLast(s, at, width, n, big);
      SameLast(LoadValues(s, at, width, n, big), LoadValue(s, at + Span(n, width), width, big), vs);
    }
  }

  lemma LoadsNone(s: seq<Byte>, at: nat, width: nat, big: bool)
    requires At(s, at, Encoded([], width, big))
    ensures at + Span(0, width) <= |s| && LoadValues(s, at, width, 0, big) == [] && Survives([], width, big)
  {
  }

  lemma LoadsLast(s: seq<Byte>, at: nat, width: nat, n: nat, big: bool)
    requires at + Span(n, width) + width <= |s|
    ensures Span(n + 1, width) == Span(n, width) + width
    ensures LoadValues(s, at, width, n + 1, big) ==
            LoadValues(s, at, width, n, big) + [LoadValue(s, at + Span(n, width), width, big)]
  {
  }

  // ----- conversion in place -----

  lemma SwapFieldHere(s: seq<Byte>, at: nat, b: seq<Byte>)
    requires At(s, at, b)
    ensures At(SwapField(s, at, |b|), at, Reversed(b))
  {
  }

  lemma SwapFieldElsewhere(s: seq<Byte>, at: nat, n: nat, p: nat, b: seq<Byte>)
    requires at + n <= |s| && At(s, p, b) && (p + |b| <= at || at + n <= p)
    ensures At(SwapField(s, at, n), p, b)
  {
    var s' := SwapField(s, at, n);
    assert forall k :: p <= k < p + |b| ==> s'[k] == s[k];
    assert s'[p..p + |b|] == s[p..p + |b|];
  }

  lemma ConvertElsewhere(s: seq<Byte>, pos: nat, p: nat, b: seq<Byte>)
    requires pos + ENTRY_SIZE <= |s| && At(s, p, b) && (p + |b| <= pos || pos + ENTRY_SIZE <= p)
    ensures At(ConvertEntry(s, pos), p, b)
  {
    hide SwapField, At;
    var s1 := SwapField(s, pos, 2);
    var s2 := SwapField(s1, pos + 2, 2);
    var s3 := SwapField(s2, pos + 4, 4);
    SwapFieldElsewhere(s, pos, 2, p, b);
    SwapFieldElsewhere(s1, pos + 2, 2, p, b);
    SwapFieldElsewhere(s2, pos + 4, 4, p, b);
    SwapFieldElsewhere(s3, pos + 8, 4, p, b);
  }

  /** The four fields of an entry. */
  predicate Fields(s: seq<Byte>, pos: nat, tag: seq<Byte>, kind: seq<Byte>, count: seq<Byte>, value: seq<Byte>)
  {
    && |tag| == 2 && |kind| == 2 && |count| == 4 && |value| == 4
    && At(s, pos, tag) && At(s, pos + 2, kind) && At(s, pos + 4, count) && At(s, pos + 8, value)
  }

  lemma EntryHasFields(s: seq<Byte>, pos: nat, e: Entry, big: bool)
    requires e.Valid() && At(s, pos, EntryBytes(e, big))
    ensures Fields(s, pos, Number(e.tag, 2, big), Number(e.type_, 2, big), Number(e.count, 4, big), ValueField(e, big))
  {
    var a, b, c, d := Number(e.tag, 2, big), Number(e.type_, 2, big), Number(e.count, 4, big), ValueField(e, big);
    assert EntryBytes(e, big) == a + (b + (c + d));
    hide EntryBytes, Number, ValueField, At;
    AtSplit(s, pos, a, b + (c + d));
    AtSplit(s, pos + 2, b, c + d);
    AtSplit(s, pos + 4, c, d);
  }

  /** Converting an entry reverses each of its fields. */
  lemma ConvertReverses(s: seq<Byte>, pos: nat, a: seq<Byte>, b: seq<Byte>, c: seq<Byte>, d: seq<Byte>)
    requires Fields(s, pos, a, b, c, d)
    ensures pos + ENTRY_SIZE <= |s|
    ensures Fields(ConvertEntry(s, pos), pos, Reversed(a), Reversed(b), Reversed(c), Reversed(d))
  {
    assert pos + ENTRY_SIZE <= |s|;
    hide SwapField, At, Reversed;
    var s1 := SwapField(s, pos, 2);
    SwapFieldHere(s, pos, a);
    SwapFieldElsewhere(s, pos, 2, pos + 2, b);
    SwapFieldElsewhere(s, pos, 2, pos + 4, c);
    SwapFieldElsewhere(s, pos, 2, pos + 8, d);
    var s2 := SwapField(s1, pos + 2, 2);
    SwapFieldElsewhere(s1, pos + 2, 2, pos, Reversed(a));
    SwapFieldHere(s1, pos + 2, b);
    SwapFieldElsewhere(s1, pos + 2, 2, pos + 4, c);
    SwapFieldElsewhere(s1, pos + 2, 2, pos + 8, d);
    var s3 := SwapField(s2, pos + 4, 4);
    SwapFieldElsewhere(s2, pos + 4, 4, pos, Reversed(a));
    SwapFieldElsewhere(s2, pos + 4, 4, pos + 2, Reversed(b));
    SwapFieldHere(s2, pos + 4, c);
    SwapFieldElsewhere(s2, pos + 4, 4, pos + 8, d);
    SwapFieldElsewhere(s3, pos + 8, 4, pos, Reversed(a));
    SwapFieldElsewhere(s3, pos + 8, 4, pos + 2, Reversed(b));
    SwapFieldElsewhere(s3, pos + 8, 4, pos + 4, Reversed(c));
    SwapFieldHere(s3, pos + 8, d);
  }

  function Prepared(s: seq<Byte>, pos: nat, big: bool): (r: seq<Byte>)
    requires pos + ENTRY_SIZE <= |s|
    ensures |r| == |s|
  {
    if big then ConvertEntry(s, pos) else s
  }

  /** What stands in the offset field when the entry is read: inline values of a big-endian file are
      reversed there, an offset is readable. */
  function FieldAsRead(e: Entry, big: bool): seq<Byte>
    requires e.Valid()
  {
    if big then Reversed(ValueField(e, true)) else ValueField(e, false)
  }

  lemma NumberReverses(v: nat, n: nat)
    ensures Reversed(Number(v, n, true)) == Number(v, n, false)
  {
    ReversedTwice(ToLE(v, n));
  }

  /** Once prepared, an entry's own numbers are little-endian whatever the file is. */
  lemma PreparedFields(s: seq<Byte>, pos: nat, e: Entry, big: bool)
    requires e.Valid() && At(s, pos, EntryBytes(e, big))
    ensures pos + ENTRY_SIZE <= |s|
    ensures Fields(Prepared(s, pos, big), pos, Number(e.tag, 2, false), Number(e.type_, 2, false),
                   Number(e.count, 4, false), FieldAsRead(e, big))
  {
    assert pos + ENTRY_SIZE <= |s|;
    hide ConvertEntry, Fields, ValueField, EntryBytes, Entry.Valid, At, Number, Reversed;
    EntryHasFields(s, pos, e, big);
    if big {
      NumberReverses(e.tag, 2);
      NumberReverses(e.type_, 2);
      NumberReverses(e.count, 4);
      ConvertReverses(s, pos, Number(e.tag, 2, true), Number(e.type_, 2, true), Number(e.count, 4, true),
                      ValueField(e, true));
    }
  }

  // ----- decoding what was encoded -----

  lemma CollectCases(s: seq<Byte>, src: nat, t: nat, count: nat, big: bool)
    requires IsType(t) && src + Span(Numbers(t, count), Width(t)) <= |s|
    ensures Width(t) == 1 || Width(t) == 2 || Width(t) == 4 || Width(t) == 8
    ensures t == ASCII ==> Width(t) == 1
    ensures var vs := LoadValues(s, src, Width(t), Numbers(t, count), big);
            Collect(s, src, t, count, big) == Decoded(TiffData(t, count, if t == ASCII then CString(vs) else vs))
  {
    if t == ASCII {
      assert UnitSize(t) == 1;
      SpanIsProduct(count, 1);
    }
    hide UnitSize, LoadValues, CString, Span;
  }

  lemma CollectDecodes(s: seq<Byte>, src: nat, e: Entry, big: bool)
    requires e.Valid() && At(s, src, Encoded(e.values, Width(e.type_), big))
    ensures Collect(s, src, e.type_, e.count, big).Decoded?
    ensures Collect(s, src, e.type_, e.count, big) == Decoded(e.Meaning()) <==>
            Survives(e.values, Width(e.type_), big)
  {
    var w := Width(e.type_);
    hide Encoded, LoadValues, At, Span, AllBelow, CString, Collect, UnitSize, Width, Numbers;
    LoadsAll(s, src, e.values, w, big);
    CollectCases(s, src, e.type_, e.count, big);
  }

  lemma LoadsFields(s: seq<Byte>, pos: nat, e: Entry, value: seq<Byte>)
    requires e.Valid()
    requires Fields(s, pos, Number(e.tag, 2, false), Number(e.type_, 2, false), Number(e.count, 4, false), value)
    ensures pos + ENTRY_SIZE <= |s|
    ensures Load(s, pos, 2) == e.tag && Load(s, pos + 2, 2) == e.type_ && Load(s, pos + 4, 4) == e.count
  {
    assert pos + ENTRY_SIZE <= |s|;
    assert Pow256(1) == 0x100 && Pow256(2) == 0x1_0000 && Pow256(3) == 0x100_0000;
    assert Pow256(4) == WORD32;
    hide At, Number, Load;
    LoadLittle(s, pos, e.tag, 2);
    LoadLittle(s, pos + 2, e.type_, 2);
    LoadLittle(s, pos + 4, e.count, 4);
  }

  lemma InlineCase(s: seq<Byte>, pos: nat, t: nat, count: nat, big: bool, len: nat)
    requires pos + ENTRY_SIZE <= |s| && IsType(t) && Size32(t, count) <= 4
    requires Load(s, pos + 2, 2) == t && Load(s, pos + 4, 4) == count
    ensures ReadEntry(s, pos, big, len).0 ==
            Collect(if big then SwapField(s, pos + 8, 4) else s, pos + 8, t, count, big)
  {
    hide Collect, Size32, Load, SwapField;
  }

  lemma OutOfLineCase(s: seq<Byte>, pos: nat, t: nat, count: nat, offset: nat, big: bool, len: nat)
    requires pos + ENTRY_SIZE <= |s| && IsType(t) && Size32(t, count) > 4
    requires Load(s, pos + 2, 2) == t && Load(s, pos + 4, 4) == count && Load(s, pos + 8, 4) == offset
    requires (offset + Size32(t, count)) % WORD32 <= len
    ensures ReadEntry(s, pos, big, len).0 == Collect(s, offset, t, count, big)
  {
    hide Collect, Size32, Load, SwapField;
  }

  lemma SizeFits(e: Entry)
    requires IsType(e.type_) && e.Size() < WORD32
    ensures Size32(e.type_, e.count) == e.Size()
  {
    hide UnitSize;
  }

  /** Values that fit into the entry: the swap back undoes the conversion of the offset field. */
  lemma ReadsInline(s: seq<Byte>, pos: nat, e: Entry, big: bool, len: nat)
    requires e.Valid() && e.Inline()
    requires Fields(s, pos, Number(e.tag, 2, false), Number(e.type_, 2, false), Number(e.count, 4, false),
                    FieldAsRead(e, big))
    ensures pos + ENTRY_SIZE <= |s|
    ensures ReadEntry(s, pos, big, len).0.Decoded?
    ensures ReadEntry(s, pos, big, len).0 == Decoded(e.Meaning()) <==> Survives(e.values, Width(e.type_), big)
  {
    var encoded := Encoded(e.values, Width(e.type_), big);
    assert e.Size() <= 4 && ValueField(e, big) == encoded + e.padding;
    assert At(s, pos + 8, FieldAsRead(e, big));
    hide *;
    LoadsFields(s, pos, e, FieldAsRead(e, big));
    FieldSwapsBack(s, pos, e, big);
    SizeFits(e);
    InlineCase(s, pos, e.type_, e.count, big, len);
    var s' := if big then SwapField(s, pos + 8, 4) else s;
    AtSplit(s', pos + 8, encoded, e.padding);
    CollectDecodes(s', pos + 8, e, big);
  }

  lemma FieldSwapsBack(s: seq<Byte>, pos: nat, e: Entry, big: bool)
    requires e.Valid() && At(s, pos + 8, FieldAsRead(e, big)) && pos + ENTRY_SIZE <= |s|
    ensures At(if big then SwapField(s, pos + 8, 4) else s, pos + 8, ValueField(e, big))
  {
    hide ValueField, At, SwapField, Reversed;
    if big {
      SwapFieldHere(s, pos + 8, Reversed(ValueField(e, big)));
      ReversedTwice(ValueField(e, big));
    }
  }

  lemma EndInside(e: Entry, len: nat)
    requires e.Valid() && !e.Inline() && e.offset + e.Size() <= len < WORD32
    ensures IsType(e.type_) && Size32(e.type_, e.count) > 4 && (e.offset + Size32(e.type_, e.count)) % WORD32 <= len
  {
    hide UnitSize;
  }

  lemma OffsetField(s: seq<Byte>, pos: nat, e: Entry, big: bool)
    requires e.Valid() && !e.Inline()
    requires Fields(s, pos, Number(e.tag, 2, false), Number(e.type_, 2, false), Number(e.count, 4, false),
                    FieldAsRead(e, big))
    ensures e.Size() > 4 && e.offset < WORD32 && At(s, pos + 8, Number(e.offset, 4, false))
  {
    hide At, UnitSize, Number, AllBelow;
    NumberReverses(e.offset, 4);
  }

  /** Values elsewhere in the buffer. */
  lemma ReadsOutOfLine(s: seq<Byte>, pos: nat, e: Entry, big: bool, len: nat)
    requires e.Valid() && !e.Inline() && e.offset + e.Size() <= len < WORD32
    requires Fields(s, pos, Number(e.tag, 2, false), Number(e.type_, 2, false), Number(e.count, 4, false),
                    FieldAsRead(e, big))
    requires At(s, e.offset, Encoded(e.values, Width(e.type_), big))
    ensures pos + ENTRY_SIZE <= |s|
    ensures ReadEntry(s, pos, big, len).0.Decoded?
    ensures ReadEntry(s, pos, big, len).0 == Decoded(e.Meaning()) <==> Survives(e.values, Width(e.type_), big)
  {
    hide *;
    OffsetField(s, pos, e, big);
    LoadsFields(s, pos, e, FieldAsRead(e, big));
    Pow256Values();
    LoadLittle(s, pos + 8, e.offset, 4);
    EndInside(e, len);
    OutOfLineCase(s, pos, e.type_, e.count, e.offset, big, len);
    CollectDecodes(s, e.offset, e, big);
  }

  /** Round trip of one entry in either byte order, for every type and count: the reader gets the
      writer's values exactly when the 64-bit swap, if it is used, keeps them. */
  lemma EntryRoundTrip(s: seq<Byte>, pos: nat, e: Entry, big: bool, len: nat, from: nat, to: nat)
    requires Stored(s, pos, e, big, len, from, to)
    ensures pos + ENTRY_SIZE <= |s| && ConvertAndRead(s, pos, big, len).0.Decoded?
    ensures ConvertAndRead(s, pos, big, len).0 == Decoded(e.Meaning()) <==> Survives(e.values, Width(e.type_), big)
  {
    StoredParts(s, pos, e, big, len, from, to);
    var s' := Prepared(s, pos, big);
    assert ConvertAndRead(s, pos, big, len) == ReadEntry(s', pos, big, len);
    hide *;
    if e.Inline() {
      ReadsInline(s', pos, e, big, len);
    } else {
      ReadsOutOfLine(s', pos, e, big, len);
    }
  }

  lemma StoredParts(s: seq<Byte>, pos: nat, e: Entry, big: bool, len: nat, from: nat, to: nat)
    requires Stored(s, pos, e, big, len, from, to)
    ensures e.Valid() && pos + ENTRY_SIZE <= |s|
    ensures Fields(Prepared(s, pos, big), pos, Number(e.tag, 2, false), Number(e.type_, 2, false),
                   Number(e.count, 4, false), FieldAsRead(e, big))
    ensures !e.Inline() ==>
              && e.offset + e.Size() <= len < WORD32
              && At(Prepared(s, pos, big), e.offset, Encoded(e.values, Width(e.type_), big))
  {
    hide Fields, FieldAsRead, At, Number, ConvertEntry, Encoded, EntryBytes, UnitSize;
    PreparedFields(s, pos, e, big);
    if !e.Inline() && big {
      SizeIsSpan(e);
      ConvertElsewhere(s, pos, e.offset, Encoded(e.values, Width(e.type_), big));
    }
  }

  /** Byte-order independence: the two encodings of an entry that is not a double decode alike, and to
      what was written. */
  lemma EntryByteOrder(s: seq<Byte>, t: seq<Byte>, pos: nat, e: Entry, len: nat, from: nat, to: nat)
    requires Stored(s, pos, e, true, len, from, to) && Stored(t, pos, e, false, len, from, to)
    requires e.type_ != DOUBLE
    ensures pos + ENTRY_SIZE <= |s| && pos + ENTRY_SIZE <= |t|
    ensures ConvertAndRead(s, pos, true, len).0 == ConvertAndRead(t, pos, false, len).0 == Decoded(e.Meaning())
  {
    NotWide(e.type_);
    assert Survives(e.values, Width(e.type_), true) && Survives(e.values, Width(e.type_), false);
    hide *;
    EntryRoundTrip(s, pos, e, true, len, from, to);
    EntryRoundTrip(t, pos, e, false, len, from, to);
  }

  lemma LoadValuesAt(s: seq<Byte>, src: nat, n: nat, big: bool, i: nat)
    requires src + n <= |s| && i < n && Span(n, 1) == n
    ensures LoadValues(s, src, 1, n, big)[i] == s[src + i]
  {
    SpanIsProduct(n - 1, 1);
    if i < n - 1 {
      LoadValuesAt(s, src, n - 1, big, i);
    } else {
      var b := [s[src + n - 1]];
      assert Slice(s, src + n - 1, 1) == b;
      assert b[1..] == [] && FromLE(b) == b[0] + 256 * FromLE(b[1..]);
    }
  }

  predicate NoNul(s: seq<Byte>, from: nat)
  {
    forall k :: from <= k < |s| ==> s[k] != 0
  }

  lemma TextHasNul(s: seq<Byte>, src: nat, n: nat, big: bool)
    requires src + n == |s| && Span(n, 1) == n
    ensures 0 in LoadValues(s, src, 1, n, big) <==> !NoNul(s, src)
  {
    var text := LoadValues(s, src, 1, n, big);
    forall i | 0 <= i < n
      ensures text[i] == s[src + i]
    {
      LoadValuesAt(s, src, n, big, i);
    }
    hide LoadValues;
    if !NoNul(s, src) {
      var k :| src <= k < |s| && s[k] == 0;
      assert text[k - src] == 0;
    }
  }

  /** Copying runs off the buffer exactly when the values reach beyond it and no NUL stops a string. */
  lemma CollectLeavesBuffer(s: seq<Byte>, src: nat, t: nat, count: nat, big: bool)
    requires IsType(t) && (src <= |s| || count > 0)
    ensures Collect(s, src, t, count, big) == Undefined <==>
            src + UnitSize(t) * count > |s| && (t == ASCII ==> NoNul(s, src))
  {
    hide *;
    if t == ASCII {
      TextLeavesBuffer(s, src, count, big);
    } else {
      NumbersLeaveBuffer(s, src, t, count, big);
    }
  }

  lemma TextLeavesBuffer(s: seq<Byte>, src: nat, count: nat, big: bool)
    requires src <= |s| || count > 0
    ensures Collect(s, src, ASCII, count, big) == Undefined <==> src + UnitSize(ASCII) * count > |s| && NoNul(s, src)
  {
    var available := if src > |s| then 0 else Min(count, |s| - src);
    assert UnitSize(ASCII) == 1;
    hide UnitSize, LoadValues, CString, Span;
    SpanIsProduct(available, 1);
    if src + count > |s| >= src {
      TextHasNul(s, src, available, big);
    }
  }

  lemma NumbersLeaveBuffer(s: seq<Byte>, src: nat, t: nat, count: nat, big: bool)
    requires IsType(t) && t != ASCII
    ensures Collect(s, src, t, count, big) == Undefined <==> src + UnitSize(t) * count > |s|
  {
    hide UnitSize, LoadValues, CString, Span, Numbers, Width;
    SizeIsSpanOf(t, count);
  }

  lemma SizeIsSpanOf(t: nat, count: nat)
    requires IsType(t)
    ensures Span(Numbers(t, count), Width(t)) == UnitSize(t) * count
  {
    SpanIsProduct(Numbers(t, count), Width(t));
  }

  /** The size, or the end of values that are not inline, exceeds 32 bits. */
  predicate Overflows(t: nat, count: nat, offset: nat)
    requires IsType(t)
  {
    var size := UnitSize(t) * count;
    size >= WORD32 || (size > 4 && offset + size >= WORD32)
  }

  /** The bounds test, in 32-bit arithmetic. */
  predicate Accepted(t: nat, count: nat, offset: nat, len: nat)
    requires IsType(t)
  {
    Size32(t, count) <= 4 || (offset + Size32(t, count)) % WORD32 <= len
  }

  lemma OverflowReaches(t: nat, count: nat, offset: nat, len: nat, src: nat, n: nat)
    requires IsType(t) && Accepted(t, count, offset, len) && len <= n < WORD32 && offset < WORD32
    requires if Size32(t, count) <= 4 then src + 4 <= n else src == offset
    ensures src + UnitSize(t) * count > n <==> Overflows(t, count, offset)
    ensures count == 0 ==> src <= n
  {
    hide UnitSize;
    if UnitSize(t) * count < WORD32 {
      assert Size32(t, count) == UnitSize(t) * count;
    }
  }

  /** Exactly which entries read outside a buffer of at least len bytes: those that pass the bounds
      test although their size or end overflows 32 bits, unless a NUL in the buffer stops a string. */
  lemma LeavesBufferIff(s: seq<Byte>, pos: nat, big: bool, len: nat)
    requires pos + ENTRY_SIZE <= |s| && len <= |s| < WORD32
    ensures var t, count, offset := Load(s, pos + 2, 2), Load(s, pos + 4, 4), Load(s, pos + 8, 4);
            ReadEntry(s, pos, big, len).0 == Undefined <==>
            IsType(t) && Accepted(t, count, offset, len) && Overflows(t, count, offset) &&
            (t == ASCII ==> NoNul(s, offset))
  {
    hide Load, Size32, UnitSize, Collect, SwapField, ReadEntry, Overflows, NoNul;
    var t, count, offset := Load(s, pos + 2, 2), Load(s, pos + 4, 4), Load(s, pos + 8, 4);
    Rejections(s, pos, big, len);
    LoadBelow(s, pos + 8);
    if IsType(t) {
      StringsDoNotWrap(s, pos, t);
      if Size32(t, count) <= 4 {
        var s' := if big then SwapField(s, pos + 8, 4) else s;
        InlineCase(s, pos, t, count, big, len);
        OverflowReaches(t, count, offset, len, pos + 8, |s|);
        CollectLeavesBuffer(s', pos + 8, t, count, big);
      } else if (offset + Size32(t, count)) % WORD32 <= len {
        OutOfLineCase(s, pos, t, count, offset, big, len);
        OverflowReaches(t, count, offset, len, offset, |s|);
        CollectLeavesBuffer(s, offset, t, count, big);
      }
    }
  }

  /** Such entries: SHORT with a count of 0x8000_0001, whose size is 2 in 32 bits. */
  lemma CountWrapsAround(s: seq<Byte>, pos: nat, big: bool, len: nat)
    requires pos + ENTRY_SIZE <= |s| && len <= |s| < WORD32
    requires At(s, pos + 2, [3, 0]) && At(s, pos + 4, [1, 0, 0, 0x80])
    ensures ReadEntry(s, pos, big, len).0 == Undefined
  {
    LoadAt(s, pos + 2, [3, 0]);
    LoadAt(s, pos + 4, [1, 0, 0, 0x80]);
    WrappingCount();
    var offset := Load(s, pos + 8, 4);
    hide *;
    ShortsOverflow(offset, len);
    LeavesBufferIff(s, pos, big, len);
  }

  lemma WrappingCount()
    ensures FromLE([3, 0]) == 3 && FromLE([1, 0, 0, 0x80]) == 0x8000_0001
  {
    FromLE2([3, 0]);
    FromLE4([1, 0, 0, 0x80]);
    hide FromLE;
  }

  lemma ShortsOverflow(offset: nat, len: nat)
    ensures IsType(3) && 3 != ASCII && Accepted(3, 0x8000_0001, offset, len) && Overflows(3, 0x8000_0001, offset)
  {
  }

  lemma LoadBelow(s: seq<Byte>, at: nat)
    requires at + 4 <= |s|
    ensures Load(s, at, 4) < WORD32
  {
    ToFromLE(Slice(s, at, 4));
    Pow256Values();
  }

  /** A string's size is its count, so an inline string cannot overflow. */
  lemma StringsDoNotWrap(s: seq<Byte>, pos: nat, t: nat)
    requires pos + ENTRY_SIZE <= |s| && IsType(t)
    ensures t == ASCII && Size32(t, Load(s, pos + 4, 4)) <= 4 ==>
              !Overflows(t, Load(s, pos + 4, 4), Load(s, pos + 8, 4))
  {
    LoadBelow(s, pos + 4);
    hide Load;
  }

  /** In particular, when neither overflows, reading any entry whatever stays inside. */
  lemma ReadsStayInside(s: seq<Byte>, pos: nat, big: bool, len: nat)
    requires pos + ENTRY_SIZE <= |s| && len <= |s| < WORD32
    requires var t, count, offset := Load(s, pos + 2, 2), Load(s, pos + 4, 4), Load(s, pos + 8, 4);
             IsType(t) ==> UnitSize(t) * count < WORD32 &&
                           (UnitSize(t) * count > 4 ==> UnitSize(t) * count + offset < WORD32)
    ensures ReadEntry(s, pos, big, len).0 != Undefined
  {
    LeavesBufferIff(s, pos, big, len);
    hide UnitSize, Load, ReadEntry, Accepted;
  }

  /** The two errors. */
  lemma Rejections(s: seq<Byte>, pos: nat, big: bool, len: nat)
    requires pos + ENTRY_SIZE <= |s|
    ensures var t, count, offset := Load(s, pos + 2, 2), Load(s, pos + 4, 4), Load(s, pos + 8, 4);
            && (!IsType(t) ==> ReadEntry(s, pos, big, len).0 == BadType)
            && (IsType(t) && Size32(t, count) > 4 && (offset + Size32(t, count)) % WORD32 > len ==>
                  ReadEntry(s, pos, big, len).0 == OutOfBounds)
            && (IsType(t) && Size32(t, count) > 4 && len < offset + Size32(t, count) < WORD32 ==>
                  ReadEntry(s, pos, big, len).0 == OutOfBounds)
  {
    hide Collect, Size32, Load, SwapField;
  }

  // ----- the buffer afterwards -----

  /** The buffer after an entry has been read: prepared, and perhaps one field swapped back. */
  lemma AfterRead(s: seq<Byte>, pos: nat, big: bool, len: nat)
    requires pos + ENTRY_SIZE <= |s|
    ensures var s', after := Prepared(s, pos, big), ConvertAndRead(s, pos, big, len).1;
            after == s' || (big && after == SwapField(s', pos + 8, 4))
  {
    hide SwapField, Collect, Load, ConvertEntry, Size32;
  }

  /** Reading an entry changes only the entry. */
  lemma ReadKeeps(s: seq<Byte>, pos: nat, big: bool, len: nat, p: nat, b: seq<Byte>)
    requires pos + ENTRY_SIZE <= |s| && At(s, p, b) && (p + |b| <= pos || pos + ENTRY_SIZE <= p)
    ensures At(ConvertAndRead(s, pos, big, len).1, p, b)
  {
    hide SwapField, At, ConvertAndRead, ConvertEntry;
    AfterRead(s, pos, big, len);
    if big {
      ConvertElsewhere(s, pos, p, b);
      SwapFieldElsewhere(Prepared(s, pos, big), pos + 8, 4, p, b);
    }
  }

  /** The tag stays readable. */
  lemma ReadKeepsTag(s: seq<Byte>, pos: nat, e: Entry, big: bool, len: nat)
    requires e.Valid() && At(s, pos, EntryBytes(e, big))
    ensures pos + ENTRY_SIZE <= |s| && Load(ConvertAndRead(s, pos, big, len).1, pos, 2) == e.tag
  {
    var tag := Number(e.tag, 2, false);
    TagBelow(e);
    assert pos + ENTRY_SIZE <= |s|;
    PreparedFields(s, pos, e, big);
    assert At(Prepared(s, pos, big), pos, tag);
    hide *;
    AfterRead(s, pos, big, len);
    SwapFieldElsewhere(Prepared(s, pos, big), pos + 8, 4, pos, tag);
    LoadLittle(ConvertAndRead(s, pos, big, len).1, pos, e.tag, 2);
  }

  lemma TagBelow(e: Entry)
    requires e.Valid()
    ensures e.tag < Pow256(2) == 0x1_0000
  {
    assert Pow256(1) == 0x100;
  }

  lemma NotWide(t: nat)
    requires IsType(t) && t != DOUBLE
    ensures Width(t) != 8
  {
  }
}
