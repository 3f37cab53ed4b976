/** Directory entries as TIFF 6.0 section 2 tells a writer to put them down, byte by byte and type by
    type, and the proof that the encoder of the round trips is that writer. */
module TiffWriter {
  import opened Bits
  import opened ByteOrder
  import opened TiffEntry

  function Two(v: nat, big: bool): seq<Byte>
  {
    if big then [v / 0x100 % 256, v % 256] else [v % 256, v / 0x100 % 256]
  }

  function Four(v: nat, big: bool): seq<Byte>
  {
    var a, b, c, d := v % 256, v / 0x100 % 256, v / 0x1_0000 % 256, v / 0x100_0000 % 256;
    if big then [d, c, b, a] else [a, b, c, d]
  }

  function Eight(v: nat, big: bool): seq<Byte>
  {
    var high := v / 0x1_0000_0000;
    if big then Four(high, true) + Four(v, true) else Four(v, false) + Four(high, false)
  }

  /** BYTE, ASCII, SBYTE and UNDEFINED take one byte, SHORT and SSHORT two, LONG, SLONG and FLOAT four,
      RATIONAL and SRATIONAL two numbers of four each, DOUBLE eight. */
  function NumberBytes(t: nat, v: nat, big: bool): seq<Byte>
  {
    if t == 1 || t == 2 || t == 6 || t == 7 then [v % 256]
    else if t == 3 || t == 8 then Two(v, big)
    else if t == 12 then Eight(v, big)
    else Four(v, big)
  }

  function ValueBytes(t: nat, vs: seq<nat>, big: bool): seq<Byte>
  {
    if vs == [] then [] else ValueBytes(t, vs[..|vs| - 1], big) + NumberBytes(t, vs[|vs| - 1], big)
  }

  /** Tag, type, count, and then the values if they fit into four bytes, else where they stand. */
  function Written(e: Entry, big: bool): seq<Byte>
  {
    var values := ValueBytes(e.type_, e.values, big);
    Two(e.tag, big) + Two(e.type_, big) + Four(e.count, big) +
    (if |values| <= 4 then values + e.padding else Four(e.offset, big))
  }

  /** One of the twelve types, as many numbers as the count says, each in its type's range. */
  ghost predicate WellTyped(e: Entry)
  {
    && e.tag < 0x1_0000 && 1 <= e.type_ <= 12 && e.count < 0x1_0000_0000 && e.offset < 0x1_0000_0000
    && |e.values| == (if e.type_ == 5 || e.type_ == 10 then 2 * e.count else e.count)
    && (forall i :: 0 <= i < |e.values| ==> e.values[i] < Limit(e.type_))
    && (|ValueBytes(e.type_, e.values, true)| <= 4 ==>
          |ValueBytes(e.type_, e.values, true)| + |e.padding| == 4)
  }

  function Limit(t: nat): nat
  {
    if t == 1 || t == 2 || t == 6 || t == 7 then 0x100
    else if t == 3 || t == 8 then 0x1_0000
    else if t == 12 then 0x1_0000_0000_0000_0000
    else 0x1_0000_0000
  }

  // ----- the encoder is this writer -----

  lemma LittleTwo(v: nat)
    ensures ToLE(v, 2) == [v % 256, v / 0x100 % 256]
  {
    assert ToLE(v / 256, 1) == [v / 256 % 256] + ToLE(v / 256 / 256, 0);
  }

  lemma LittleFour(v: nat)
    ensures ToLE(v, 4) == [v % 256, v / 0x100 % 256, v / 0x1_0000 % 256, v / 0x100_0000 % 256]
  {
    LittleTwo(v / 256 / 256);
    assert v / 256 / 256 == v / 0x1_0000 && v / 0x1_0000 / 256 == v / 0x100_0000;
    assert ToLE(v / 256, 3) == [v / 256 % 256] + ToLE(v / 256 / 256, 2);
    assert ToLE(v, 4) == [v % 256] + ToLE(v / 256, 3);
  }

  lemma LittleEight(v: nat)
    ensures ToLE(v, 8) == Eight(v, false)
  {
    LittleFour(v / 0x1_0000_0000);
    LittleSteps(v);
    hide ToLE;
  }

  lemma LittleSteps(v: nat)
    ensures ToLE(v, 8) == [v % 256, v / 0x100 % 256, v / 0x1_0000 % 256, v / 0x100_0000 % 256] +
                          ToLE(v / 0x1_0000_0000, 4)
  {
    assert v / 256 / 256 == v / 0x1_0000 && v / 0x1_0000 / 256 == v / 0x100_0000;
    assert v / 0x100_0000 / 256 == v / 0x1_0000_0000;
    assert ToLE(v / 0x100_0000, 5) == [v / 0x100_0000 % 256] + ToLE(v / 0x1_0000_0000, 4);
    assert ToLE(v / 0x1_0000, 6) == [v / 0x1_0000 % 256] + ToLE(v / 0x100_0000, 5);
    assert ToLE(v / 256, 7) == [v / 256 % 256] + ToLE(v / 0x1_0000, 6);
    assert ToLE(v, 8) == [v % 256] + ToLE(v / 256, 7);
  }

  lemma NumberTwo(v: nat, big: bool)
    ensures Number(v, 2, big) == Two(v, big)
  {
    LittleTwo(v);
    hide ToLE;
    assert |Number(v, 2, big)| == |Two(v, big)|;
  }

  lemma NumberFour(v: nat, big: bool)
    ensures Number(v, 4, big) == Four(v, big)
  {
    LittleFour(v);
    hide ToLE;
    assert |Number(v, 4, big)| == |Four(v, big)|;
  }

  lemma NumberEight(v: nat, big: bool)
    ensures Number(v, 8, big) == Eight(v, big)
  {
    LittleEight(v);
    assert Eight(v, big) == if big then Reversed(Eight(v, false)) else Eight(v, false);
    hide ToLE, Eight;
  }

  lemma NumberOne(v: nat, big: bool)
    ensures Number(v, 1, big) == [v % 256]
  {
    assert ToLE(v, 1) == [v % 256] + ToLE(v / 256, 0);
    assert Reversed([v % 256]) == [v % 256];
  }

  lemma EncodesNumber(t: nat, v: nat, big: bool)
    requires IsType(t)
    ensures Number(v, Width(t), big) == NumberBytes(t, v, big)
  {
    NumberOne(v, big);
    NumberTwo(v, big);
    NumberFour(v, big);
    NumberEight(v, big);
    hide Number, Two, Four, Eight;
  }

  lemma {:induction false} EncodesValues(t: nat, vs: seq<nat>, big: bool)
    requires IsType(t)
    ensures Encoded(vs, Width(t), big) == ValueBytes(t, vs, big)
  {
    hide Width, Number, NumberBytes;
    if vs != [] {
      EncodesValues(t, vs[..|vs| - 1], big);
      EncodesNumber(t, vs[|vs| - 1], big);
    }
  }

  lemma Limits(t: nat)
    requires IsType(t)
    ensures Pow256(Width(t)) == Limit(t)
  {
    Pow256Values();
    assert Pow256(1) == 0x100 && Pow256(2) == 0x1_0000;
    hide Pow256;
  }

  /** The encoder's entries are the writer's, and it puts down the writer's bytes. */
  lemma EncoderIsWriter(e: Entry, big: bool)
    ensures e.Valid() <==> WellTyped(e)
    ensures e.Valid() ==>
              && EntryBytes(e, big) == Written(e, big)
              && Encoded(e.values, Width(e.type_), big) == ValueBytes(e.type_, e.values, big)
              && (e.Inline() <==> |ValueBytes(e.type_, e.values, big)| <= 4)
              && e.Size() == |ValueBytes(e.type_, e.values, big)|
  {
    if IsType(e.type_) {
      ValidIff(e);
      if e.Valid() {
        hide *;
        SameBytesWritten(e, big);
      }
    }
  }

  lemma ValidIff(e: Entry)
    requires IsType(e.type_)
    ensures e.Valid() <==> WellTyped(e)
  {
    Limits(e.type_);
    EncodesValues(e.type_, e.values, true);
    assert Numbers(e.type_, e.count) == if e.type_ == 5 || e.type_ == 10 then 2 * e.count else e.count;
    if |e.values| == Numbers(e.type_, e.count) {
      SizeIsSpan(e);
      hide Width, Pow256, Limit, Encoded, ValueBytes, Span, UnitSize;
    }
  }

  lemma SameBytesWritten(e: Entry, big: bool)
    requires e.Valid()
    ensures EntryBytes(e, big) == Written(e, big)
    ensures Encoded(e.values, Width(e.type_), big) == ValueBytes(e.type_, e.values, big)
    ensures e.Inline() <==> |ValueBytes(e.type_, e.values, big)| <= 4
    ensures e.Size() == |ValueBytes(e.type_, e.values, big)|
  {
    SizeIsSpan(e);
    EncodesValues(e.type_, e.values, big);
    NumberTwo(e.tag, big);
    NumberTwo(e.type_, big);
    NumberFour(e.count, big);
    NumberFour(e.offset, big);
    hide Encoded, ValueBytes, Number, Two, Four, Width, UnitSize, Span, AllBelow, ValueField;
    FieldWritten(e, big);
    Grouped(Two(e.tag, big), Two(e.type_, big), Four(e.count, big), ValueField(e, big));
  }

  lemma FieldWritten(e: Entry, big: bool)
    requires e.Valid()
    ensures var values := ValueBytes(e.type_, e.values, big);
            && ValueField(e, big) == (if |values| <= 4 then values + e.padding else Four(e.offset, big))
            && |values| == e.Size()
  {
    SizeIsSpan(e);
    EncodesValues(e.type_, e.values, big);
    NumberFour(e.offset, big);
    hide Encoded, ValueBytes, Number, Four, Width, UnitSize, Span, AllBelow;
  }

  lemma Grouped(a: seq<Byte>, b: seq<Byte>, c: seq<Byte>, d: seq<Byte>)
    ensures a + (b + (c + d)) == a + b + c + d
  {
  }

  /** A written entry stands at pos, values too long for it where it says, within the first len bytes
      and clear of the entry. */
  ghost predicate StandsAt(s: seq<Byte>, pos: nat, e: Entry, big: bool, len: nat)
  {
    var values := ValueBytes(e.type_, e.values, big);
    && WellTyped(e) && At(s, pos, Written(e, big))
    && (|values| > 4 ==>
          && e.offset + |values| <= len < 0x1_0000_0000 && At(s, e.offset, values)
          && (e.offset + |values| <= pos || pos + 12 <= e.offset))
  }

  /** What the 64-bit swap loses: the third and fourth byte of a big-endian double. */
  ghost predicate Loses(e: Entry, big: bool)
  {
    big && e.type_ == 12 &&
    exists i :: 0 <= i < |e.values| && !(e.values[i] / 0x1_0000 % 256 == 0 && e.values[i] / 0x100_0000 % 256 == 0)
  }

  /** Round trip from the writer's bytes: for each of the twelve types, in either byte order, the reader
      gets the type, the count and the values, strings up to their NUL, unless a big-endian double
      has bytes that are lost. */
  lemma WriterRoundTrip(s: seq<Byte>, pos: nat, e: Entry, big: bool, len: nat)
    requires StandsAt(s, pos, e, big, len)
    ensures pos + 12 <= |s|
    ensures ConvertAndRead(s, pos, big, len).0 ==
            Decoded(TiffData(e.type_, e.count, if e.type_ == 2 then CString(e.values) else e.values)) <==>
            !Loses(e, big)
  {
    StandsStored(s, pos, e, big, len);
    LosesIff(e, big);
    MeaningIs(e);
    hide *;
    EntryRoundTrip(s, pos, e, big, len, pos, pos + ENTRY_SIZE);
  }

  /** Byte-order independence from the writer's bytes: what is not a double reads alike from both. */
  lemma WriterByteOrder(s: seq<Byte>, t: seq<Byte>, pos: nat, e: Entry, len: nat)
    requires StandsAt(s, pos, e, true, len) && StandsAt(t, pos, e, false, len) && e.type_ != 12
    ensures pos + 12 <= |s| && pos + 12 <= |t|
    ensures ConvertAndRead(s, pos, true, len).0 == ConvertAndRead(t, pos, false, len).0 ==
            Decoded(TiffData(e.type_, e.count, if e.type_ == 2 then CString(e.values) else e.values))
  {
    assert !Loses(e, true) && !Loses(e, false);
    hide *;
    WriterRoundTrip(s, pos, e, true, len);
    WriterRoundTrip(t, pos, e, false, len);
  }

  lemma StandsStored(s: seq<Byte>, pos: nat, e: Entry, big: bool, len: nat)
    requires StandsAt(s, pos, e, big, len)
    ensures Stored(s, pos, e, big, len, pos, pos + ENTRY_SIZE) && pos + 12 <= |s|
  {
    EncoderIsWriter(e, big);
    hide ValueBytes, Written, EntryBytes, Encoded, WellTyped, Width, UnitSize;
  }

  lemma MeaningIs(e: Entry)
    ensures e.Meaning() == TiffData(e.type_, e.count, if e.type_ == 2 then CString(e.values) else e.values)
  {
  }

  lemma KeptIff(v: nat)
    ensures KeptBySwap64(v) <==> v / 0x1_0000 % 256 == 0 && v / 0x100_0000 % 256 == 0
  {
    LittleSteps(v);
    hide ToLE;
  }

  lemma LosesIff(e: Entry, big: bool)
    requires WellTyped(e)
    ensures IsType(e.type_) && (Survives(e.values, Width(e.type_), big) <==> !Loses(e, big))
  {
    forall i | 0 <= i < |e.values|
      ensures KeptBySwap64(e.values[i]) <==>
              e.values[i] / 0x1_0000 % 256 == 0 && e.values[i] / 0x100_0000 % 256 == 0
    {
      KeptIff(e.values[i]);
    }
    assert Width(e.type_) == 8 <==> e.type_ == 12;
    hide KeptBySwap64, Width, ValueBytes, Limit;
  }
}
