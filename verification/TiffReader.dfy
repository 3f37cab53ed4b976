/** The directory reader as the C code runs it, on the segment's buffer: words are loaded, swapped
    and stored back in place, values are copied out in loops. */
module TiffReader {
  import opened Bits
  import opened ByteOrder
  import opened Prelude
  import opened TiffDirectory
  import opened TiffEntry

  method Store(a: array<Byte>, at: nat, bytes: seq<Byte>)
    requires at + |bytes| <= a.Length
    modifies a
    ensures a[..] == old(a[..at]) + bytes + old(a[at + |bytes|..])
  {
    forall j | 0 <= j < |bytes| {
      a[at + j] := bytes[j];
    }
  }

  lemma SwapIsReversal(b: seq<Byte>)
    ensures |b| == 2 ==> ToLE(Swap16(FromLE(b)), 2) == Reversed(b)
    ensures |b| == 4 ==> ToLE(Swap32(FromLE(b)), 4) == Reversed(b)
  {
    ToFromLE(Reversed(b));
    if |b| == 2 {
      Swap16Reverses(b);
    } else if |b| == 4 {
      Swap32Reverses(b);
    }
  }

  /** `be16_to_cpu` on a field. */
  method Be16ToCpu(a: array<Byte>, at: nat)
    requires at + 2 <= a.Length
    modifies a
    ensures a[..] == SwapField(old(a[..]), at, 2)
  {
    ghost var s := a[..];
    var b := a[at..at + 2];
    assert b == Slice(s, at, 2);
    SwapIsReversal(b);
    Store(a, at, ToLE(Swap16(FromLE(b)), 2));
  }

  /** `be32_to_cpu` on a field. */
  method Be32ToCpu(a: array<Byte>, at: nat)
    requires at + 4 <= a.Length
    modifies a
    ensures a[..] == SwapField(old(a[..]), at, 4)
  {
    ghost var s := a[..];
    var b := a[at..at + 4];
    assert b == Slice(s, at, 4);
    SwapIsReversal(b);
    Store(a, at, ToLE(Swap32(FromLE(b)), 4));
  }

  method LoadWord(a: array<Byte>, at: nat, n: nat) returns (v: nat)
    requires at + n <= a.Length
    ensures v == Load(a[..], at, n)
  {
    assert a[at..at + n] == Slice(a[..], at, n);
    v := FromLE(a[at..at + n]);
  }

  method LoadSwapped(a: array<Byte>, at: nat, width: nat, big: bool) returns (v: nat)
    requires at + width <= a.Length
    ensures v == LoadValue(a[..], at, width, big)
  {
    v := LoadWord(a, at, width);
    if big {
      if width == 2 {
        v := Swap16(v);
      } else if width == 4 {
        v := Swap32(v);
      } else if width == 8 {
        v := Swap64(v);
      }
    }
  }

  lemma {:induction false} SpanGrows(i: nat, n: nat, width: nat)
    requires i <= n
    ensures Span(i, width) <= Span(n, width)
    decreases n - i
  {
    if i < n {
      SpanGrows(i, n - 1, width);
    }
  }

  /** The copying loop for numbers of one width; a rational counts as two. */
  method CopyNumbers(a: array<Byte>, src: nat, width: nat, n: nat, big: bool) returns (vs: seq<nat>)
    requires src + Span(n, width) <= a.Length
    ensures vs == LoadValues(a[..], src, width, n, big)
  {
    vs := [];
    SpanGrows(0, n, width);
    for i := 0 to n
      invariant src + Span(i, width) <= a.Length
      invariant vs == LoadValues(a[..], src, width, i, big)
    {
      SpanGrows(i + 1, n, width);
      SpanIsProduct(i, width);
      var v := LoadSwapped(a, src + i * width, width, big);
      vs := vs + [v];
    }
  }

  lemma {:induction false} CStringOfPrefix(vs: seq<nat>, i: nat)
    requires i <= |vs| && 0 !in vs[..i]
    ensures i == |vs| ==> CString(vs) == vs
    ensures i < |vs| && vs[i] == 0 ==> CString(vs) == vs[..i + 1]
    decreases i
  {
    if i > 0 {
      assert vs[..i][0] == vs[0] && vs[..i][1..] == vs[1..][..i - 1];
      assert 0 !in vs[1..][..i - 1];
      CStringOfPrefix(vs[1..], i - 1);
      assert [vs[0]] + vs[1..] == vs;
      assert i < |vs| ==> [vs[0]] + vs[1..][..i] == vs[..i + 1];
    }
  }

  /** The string loop: it stops behind the first NUL, or when the count is used up. */
  method CopyString(a: array<Byte>, src: nat, n: nat, ghost big: bool) returns (vs: seq<nat>)
    requires src + n <= a.Length && Span(n, 1) == n
    ensures vs == CString(LoadValues(a[..], src, 1, n, big))
  {
    vs := [];
    ghost var all := LoadValues(a[..], src, 1, n, big);
    var i := 0;
    while i < n
      invariant i <= n && vs == all[..i] && 0 !in vs
    {
      LoadValuesAt(a[..], src, n, big, i);
      vs := vs + [a[src + i]];
      if a[src + i] == 0 {
        CStringOfPrefix(all, i);
        return;
      }
      i := i + 1;
    }
    CStringOfPrefix(all, n);
    assert all[..n] == all;
  }

  /** Copying an entry's values; a read outside the buffer ends the model's run. */
  method CollectValues(a: array<Byte>, src: nat, t: nat, count: nat, big: bool) returns (r: Result)
    requires IsType(t)
    ensures r == Collect(a[..], src, t, count, big)
  {
    hide LoadValues, UnitSize, CString;
    if t == ASCII {
      var available := if src > a.Length then 0 else Min(count, a.Length - src);
      SpanIsProduct(available, 1);
      var text := [];
      ghost var whole := if src > a.Length then [] else LoadValues(a[..], src, 1, available, big);
      if src <= a.Length {
        text := CopyString(a, src, available, big);
      } else {
        CStringOfPrefix(whole, 0);
      }
      CStringKeepsNul(whole);
      if available == count || 0 in text {
        r := Decoded(TiffData(t, count, text));
      } else {
        r := Undefined;
      }
    } else {
      var n, width := Numbers(t, count), Width(t);
      SpanIsProduct(n, width);
      if src + n * width > a.Length {
        r := Undefined;
      } else {
        var vs := CopyNumbers(a, src, width, n, big);
        r := Decoded(TiffData(t, count, vs));
      }
    }
  }

  lemma {:induction false} CStringKeepsNul(vs: seq<nat>)
    ensures 0 in CString(vs) <==> 0 in vs
  {
    if vs != [] && vs[0] != 0 {
      CStringKeepsNul(vs[1..]);
      assert vs == [vs[0]] + vs[1..];
    }
  }

  /** The four conversions of one entry. */
  method ConvertInPlace(a: array<Byte>, pos: nat)
    requires pos + ENTRY_SIZE <= a.Length
    modifies a
    ensures a[..] == ConvertEntry(old(a[..]), pos)
  {
    hide SwapField;
    Be16ToCpu(a, pos);
    Be16ToCpu(a, pos + 2);
    Be32ToCpu(a, pos + 4);
    Be32ToCpu(a, pos + 8);
  }

  /** `jpeg_exif_read_entry` on an entry inside the buffer. */
  method ReadEntryInPlace(a: array<Byte>, pos: nat, big: bool, len: nat) returns (r: Result)
    requires pos + ENTRY_SIZE <= a.Length
    modifies a
    ensures (r, a[..]) == ReadEntry(old(a[..]), pos, big, len)
  {
    hide Load, Collect, SwapField, UnitSize;
    var t := LoadWord(a, pos + 2, 2);
    if !IsType(t) {
      return BadType;
    }
    var count := LoadWord(a, pos + 4, 4);
    var offset := LoadWord(a, pos + 8, 4);
    var size := (UnitSize(t) * count) % WORD32;
    assert size == Size32(t, count);
    hide Size32;
    if size <= 4 {
      if big {
        Be32ToCpu(a, pos + 8);
      }
      r := CollectValues(a, pos + 8, t, count, big);
    } else if (offset + size) % WORD32 > len {
      r := OutOfBounds;
    } else {
      r := CollectValues(a, offset, t, count, big);
    }
  }

  method ConvertAndReadInPlace(a: array<Byte>, pos: nat, big: bool, len: nat) returns (r: Result)
    requires pos + ENTRY_SIZE <= a.Length
    modifies a
    ensures (r, a[..]) == ConvertAndRead(old(a[..]), pos, big, len)
  {
    hide ReadEntry, ConvertEntry;
    if big {
      ConvertInPlace(a, pos);
    }
    r := ReadEntryInPlace(a, pos, big, len);
  }

  /** The body of the loop in `jpeg_exif_read_ifd`: one entry, shown or followed into its directory.
      It either ends the reading or says what was shown. */
  method EntryInPlace(a: array<Byte>, base: nat, i: nat, ghost n: nat, big: bool, len: nat, fuel: nat)
    returns (end: Option<Stop>, more: seq<(nat, TiffData)>)
    requires i < n
    modifies a
    ensures ReadFrom(old(a[..]), base, i, n, big, len, fuel) ==
            if end.Some? then Reading(end.value, more, a[..])
            else ReadFrom(a[..], base, i + 1, n, big, len, fuel).After(more)
    decreases fuel, 1
  {
    hide *;
    ghost var s := a[..];
    var pos := Position(base, i);
    if !InLimit(a[..], pos, len) {
      AtLimit(s, base, i, n, big, len, fuel);
      return Some(if pos >= EntryLimit(len) then InvalidCount else OutsideBuffer), [];
    }
    InLimitFits(s, pos, len);
    var r := ConvertAndReadInPlace(a, pos, big, len);
    if !r.Decoded? {
      AtFailure(s, base, i, n, big, len, fuel);
      return Some(EntryFailed(r)), [];
    }
    var tag := LoadWord(a, pos, 2);
    if !IsPointer(tag) {
      AtPlain(s, base, i, n, big, len, fuel);
      return None, [(tag, r.data)];
    }
    AtPointer(s, base, i, n, big, len, fuel);
    if r.data.type_ != LONG || r.data.count != 1 {
      return Some(AssertionFailed), [];
    }
    var below, shown := ReadIfdInPlace(a, r.data.values[0], big, len, fuel);
    return if below.Returns() then None else Some(below), shown;
  }

  /** `jpeg_exif_read_ifd`: the entries in order, the buffer changing under way, and the link. */
  method ReadIfdInPlace(a: array<Byte>, base: nat, big: bool, len: nat, fuel: nat)
    returns (stop: Stop, shown: seq<(nat, TiffData)>)
    modifies a
    ensures Reading(stop, shown, a[..]) == ReadIfd(old(a[..]), base, big, len, fuel)
    decreases fuel, 0
  {
    hide *;
    ghost var whole := ReadIfd(a[..], base, big, len, fuel);
    AtHead(a[..], base, big, len, fuel);
    if fuel == 0 {
      return OutOfFuel, [];
    }
    if base >= OffsetLimit(len) {
      return InvalidOffset, [];
    }
    if base + 2 > a.Length {
      return OutsideBuffer, [];
    }
    var n := LoadSwapped(a, base, 2, big);
    shown := [];
    AfterNothing(whole);
    for i := 0 to n
      invariant whole == ReadFrom(a[..], base, i, n, big, len, fuel - 1).After(shown)
    {
      var end, more := EntryInPlace(a, base, i, n, big, len, fuel - 1);
      if end.Some? {
        MoreAfter(end.value, more, a[..], shown);
        return end.value, shown + more;
      }
      AfterTwice(ReadFrom(a[..], base, i + 1, n, big, len, fuel - 1), shown, more);
      shown := shown + more;
    }
    var last, more := FollowLinkInPlace(a, base, n, big, len, fuel - 1);
    MoreAfter(last, more, a[..], shown);
    return last, shown + more;
  }

  /** The end of `jpeg_exif_read_ifd`: the next directory, if there is one. */
  method FollowLinkInPlace(a: array<Byte>, base: nat, n: nat, big: bool, len: nat, fuel: nat)
    returns (stop: Stop, shown: seq<(nat, TiffData)>)
    modifies a
    ensures Reading(stop, shown, a[..]) == ReadFrom(old(a[..]), base, n, n, big, len, fuel)
    decreases fuel, 1
  {
    hide *;
    AtEnd(a[..], base, n, big, len, fuel);
    var pos := Position(base, n);
    if pos + 4 > a.Length {
      return OutsideBuffer, [];
    }
    var raw := LoadWord(a, pos, 4);
    if raw == 0 {
      return Complete, [];
    }
    var link := LoadSwapped(a, pos, 4, big);
    stop, shown := ReadIfdInPlace(a, link, big, len, fuel);
  }
}
