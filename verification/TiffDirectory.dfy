/** Whole TIFF directories: a directory's entries are converted one after the other in the buffer their
    values are read from, the pointer entries among them are followed into child directories of the
    same buffer, and the link at the end to the next directory. */
module TiffDirectory {
  import opened Bits
  import opened Prelude
  import opened TiffEntry

  const LONG: nat := 4

  /** The tags of the Exif, GPS and interoperability directories. */
  predicate IsPointer(tag: nat)
  {
    tag == 34665 || tag == 34853 || tag == 40965
  }

  /** Why reading ended. `OutsideBuffer` is a read the C code does not define. */
  datatype Stop =
    | Complete
    | InvalidOffset
    | InvalidCount
    | EntryFailed(result: Result)
    | OutsideBuffer
    | AssertionFailed
    | OutOfFuel
  {
    /** The call comes back, with true or with false, which a parent directory ignores. */
    predicate Returns()
    {
      Complete? || InvalidOffset? || InvalidCount? || (EntryFailed? && (result.BadType? || result.OutOfBounds?))
    }
  }

  /** The tagged values shown before the stop, and the buffer then. */
  datatype Reading = Reading(stop: Stop, shown: seq<(nat, TiffData)>, buffer: seq<Byte>)
  {
    function After(earlier: seq<(nat, TiffData)>): Reading
    {
      Reading(stop, earlier + shown, buffer)
    }
  }

  function EntryPos(base: nat, i: nat): nat
  {
    base + 2 + i * ENTRY_SIZE
  }

  /** `len_ifd - 4u` in 32 bits. */
  function OffsetLimit(len: nat): nat
  {
    (len + WORD32 - 4) % WORD32
  }

  /** `len_ifd - sizeof(tiff_entry_t)` in 64 bits: no limit at all for a length below the size. */
  function EntryLimit(len: nat): nat
  {
    (len + WORD64 - ENTRY_SIZE) % WORD64
  }

  /** The directory at base and all that it leads to; the fuel bounds the depth of activations. */
  function ReadIfd(s: seq<Byte>, base: nat, big: bool, len: nat, fuel: nat): (r: Reading)
    ensures |r.buffer| == |s|
    decreases fuel, 0
  {
    if fuel == 0 then Reading(OutOfFuel, [], s)
    else if base >= OffsetLimit(len) then Reading(InvalidOffset, [], s)
    else if base + 2 > |s| then Reading(OutsideBuffer, [], s)
    else ReadFrom(s, base, 0, LoadValue(s, base, 2, big), big, len, fuel - 1)
  }

  /** The entries from the i-th on, and behind the last of them the link. */
  function ReadFrom(s: seq<Byte>, base: nat, i: nat, n: nat, big: bool, len: nat, fuel: nat): (r: Reading)
    requires i <= n
    ensures |r.buffer| == |s|
    decreases fuel, 1 + n - i
  {
    var pos := EntryPos(base, i) % WORD32;
    if i == n then
      if pos + 4 > |s| then Reading(OutsideBuffer, [], s)
      else if Load(s, pos, 4) == 0 then Reading(Complete, [], s)
      else ReadIfd(s, LoadValue(s, pos, 4, big), big, len, fuel)
    else if pos >= EntryLimit(len) then Reading(InvalidCount, [], s)
    else if pos + ENTRY_SIZE > |s| then Reading(OutsideBuffer, [], s)
    else
      var (r, s') := ConvertAndRead(s, pos, big, len);
      if !r.Decoded? then Reading(EntryFailed(r), [], s')
      else
        var tag := Load(s', pos, 2);
        if !IsPointer(tag) then ReadFrom(s', base, i + 1, n, big, len, fuel).After([(tag, r.data)])
        else if r.data.type_ != LONG || r.data.count != 1 then Reading(AssertionFailed, [], s')
        else
          NumbersDecoded(s, pos, big, len);
          var child := ReadIfd(s', r.data.values[0], big, len, fuel);
          if !child.stop.Returns() then child
          else ReadFrom(child.buffer, base, i + 1, n, big, len, fuel).After(child.shown)
  }

  lemma NumbersDecoded(s: seq<Byte>, pos: nat, big: bool, len: nat)
    requires pos + ENTRY_SIZE <= |s|
    ensures var r := ConvertAndRead(s, pos, big, len).0;
            r.Decoded? && r.data.type_ == LONG ==> |r.data.values| == r.data.count
  {
    hide ConvertEntry, SwapField, LoadValues, Load, Span, CString;
  }

  // ----- fuel -----

  /** Once the fuel suffices, more of it changes nothing. */
  lemma {:induction false} FuelSuffices(s: seq<Byte>, base: nat, big: bool, len: nat, fuel: nat, more: nat)
    requires fuel <= more && ReadIfd(s, base, big, len, fuel).stop != OutOfFuel
    ensures ReadIfd(s, base, big, len, more) == ReadIfd(s, base, big, len, fuel)
    decreases fuel, 0
  {
    hide LoadValue, ReadFrom;
    if base < OffsetLimit(len) && base + 2 <= |s| {
      FuelSufficesFrom(s, base, 0, LoadValue(s, base, 2, big), big, len, fuel - 1, more - 1);
    }
  }

  lemma {:induction false} FuelSufficesFrom(s: seq<Byte>, base: nat, i: nat, n: nat, big: bool, len: nat, fuel: nat,
                                            more: nat)
    requires i <= n && fuel <= more && ReadFrom(s, base, i, n, big, len, fuel).stop != OutOfFuel
    ensures ReadFrom(s, base, i, n, big, len, more) == ReadFrom(s, base, i, n, big, len, fuel)
    decreases fuel, 1 + n - i
  {
    hide LoadValue, Load, ConvertAndRead, ReadIfd, EntryPos, EntryLimit, IsPointer;
    var pos := EntryPos(base, i) % WORD32;
    if i == n {
      if pos + 4 <= |s| && Load(s, pos, 4) != 0 {
        FuelSuffices(s, LoadValue(s, pos, 4, big), big, len, fuel, more);
      }
    } else if pos < EntryLimit(len) && pos + ENTRY_SIZE <= |s| {
      var (r, s') := ConvertAndRead(s, pos, big, len);
      if r.Decoded? {
        var tag := Load(s', pos, 2);
        if !IsPointer(tag) {
          FuelSufficesFrom(s', base, i + 1, n, big, len, fuel, more);
        } else if r.data.type_ == LONG && r.data.count == 1 {
          NumbersDecoded(s, pos, big, len);
          var child := ReadIfd(s', r.data.values[0], big, len, fuel);
          FuelSuffices(s', r.data.values[0], big, len, fuel, more);
          if child.stop.Returns() {
            FuelSufficesFrom(child.buffer, base, i + 1, n, big, len, fuel, more);
          }
        }
      }
    }
  }

  lemma MoreAfter(stop: Stop, more: seq<(nat, TiffData)>, s: seq<Byte>, shown: seq<(nat, TiffData)>)
    ensures Reading(stop, more, s).After(shown) == Reading(stop, shown + more, s)
  {
  }

  lemma InLimitFits(s: seq<Byte>, pos: nat, len: nat)
    requires InLimit(s, pos, len)
    ensures pos + ENTRY_SIZE <= |s| && pos + 2 <= |s|
  {
  }

  lemma AfterNothing(r: Reading)
    ensures r.After([]) == r
  {
  }

  lemma AfterTwice(r: Reading, a: seq<(nat, TiffData)>, b: seq<(nat, TiffData)>)
    ensures r.After(b).After(a) == r.After(a + b)
  {
    Associative(a, b, r.shown);
  }

  // ----- one entry, or the end, at a time -----

  function Position(base: nat, i: nat): nat
  {
    EntryPos(base, i) % WORD32
  }

  predicate InLimit(s: seq<Byte>, pos: nat, len: nat)
  {
    pos < EntryLimit(len) && pos + ENTRY_SIZE <= |s|
  }

  lemma AtHead(s: seq<Byte>, base: nat, big: bool, len: nat, fuel: nat)
    ensures ReadIfd(s, base, big, len, fuel) ==
            if fuel == 0 then Reading(OutOfFuel, [], s)
            else if base >= OffsetLimit(len) then Reading(InvalidOffset, [], s)
            else if base + 2 > |s| then Reading(OutsideBuffer, [], s)
            else ReadFrom(s, base, 0, LoadValue(s, base, 2, big), big, len, fuel - 1)
  {
    hide LoadValue, ReadFrom, OffsetLimit;
  }

  lemma AtEnd(s: seq<Byte>, base: nat, n: nat, big: bool, len: nat, fuel: nat)
    ensures var pos := Position(base, n);
            ReadFrom(s, base, n, n, big, len, fuel) ==
            if pos + 4 > |s| then Reading(OutsideBuffer, [], s)
            else if Load(s, pos, 4) == 0 then Reading(Complete, [], s)
            else ReadIfd(s, LoadValue(s, pos, 4, big), big, len, fuel)
  {
    hide Load, LoadValue, ReadIfd, EntryPos;
  }

  lemma AtLimit(s: seq<Byte>, base: nat, i: nat, n: nat, big: bool, len: nat, fuel: nat)
    requires i < n && !InLimit(s, Position(base, i), len)
    ensures ReadFrom(s, base, i, n, big, len, fuel) ==
            Reading(if Position(base, i) >= EntryLimit(len) then InvalidCount else OutsideBuffer, [], s)
  {
    hide Load, LoadValue, ReadIfd, EntryPos, EntryLimit, IsPointer, ConvertAndRead;
  }

  lemma AtFailure(s: seq<Byte>, base: nat, i: nat, n: nat, big: bool, len: nat, fuel: nat)
    requires i < n && InLimit(s, Position(base, i), len)
    requires !ConvertAndRead(s, Position(base, i), big, len).0.Decoded?
    ensures var (r, t) := ConvertAndRead(s, Position(base, i), big, len);
            ReadFrom(s, base, i, n, big, len, fuel) == Reading(EntryFailed(r), [], t)
  {
    hide Load, LoadValue, ReadIfd, EntryPos, EntryLimit, IsPointer, ConvertAndRead;
  }

  lemma AtPlain(s: seq<Byte>, base: nat, i: nat, n: nat, big: bool, len: nat, fuel: nat)
    requires i < n && InLimit(s, Position(base, i), len) && ConvertAndRead(s, Position(base, i), big, len).0.Decoded?
    requires !IsPointer(Load(ConvertAndRead(s, Position(base, i), big, len).1, Position(base, i), 2))
    ensures var (r, t) := ConvertAndRead(s, Position(base, i), big, len);
            ReadFrom(s, base, i, n, big, len, fuel) ==
            ReadFrom(t, base, i + 1, n, big, len, fuel).After([(Load(t, Position(base, i), 2), r.data)])
  {
    hide Load, LoadValue, ReadIfd, EntryPos, EntryLimit, IsPointer, ConvertAndRead;
  }

  lemma AtPointer(s: seq<Byte>, base: nat, i: nat, n: nat, big: bool, len: nat, fuel: nat)
    requires i < n && InLimit(s, Position(base, i), len) && ConvertAndRead(s, Position(base, i), big, len).0.Decoded?
    requires IsPointer(Load(ConvertAndRead(s, Position(base, i), big, len).1, Position(base, i), 2))
    ensures var (r, t) := ConvertAndRead(s, Position(base, i), big, len);
            if r.data.type_ != LONG || r.data.count != 1 then
              ReadFrom(s, base, i, n, big, len, fuel) == Reading(AssertionFailed, [], t)
            else
              && |r.data.values| == 1
              && var below := ReadIfd(t, r.data.values[0], big, len, fuel);
              ReadFrom(s, base, i, n, big, len, fuel) ==
              if below.stop.Returns() then ReadFrom(below.buffer, base, i + 1, n, big, len, fuel).After(below.shown)
              else below
  {
    NumbersDecoded(s, Position(base, i), big, len);
    hide Load, LoadValue, ReadIfd, EntryPos, EntryLimit, IsPointer, ConvertAndRead;
  }

  /** No fuel suffices for a directory without entries that links to itself. */
  lemma {:induction false} LinkToItselfNeverEnds(s: seq<Byte>, base: nat, big: bool, len: nat, fuel: nat)
    requires 0 < base < len - 4 < 0x1_0000 && base + 6 <= |s|
    requires LoadValue(s, base, 2, big) == 0 && LoadValue(s, base + 2, 4, big) == base
    ensures ReadIfd(s, base, big, len, fuel) == Reading(OutOfFuel, [], s)
    decreases fuel
  {
    hide *;
    AtHead(s, base, big, len, fuel);
    if fuel > 0 {
      LinkToItselfNeverEnds(s, base, big, len, fuel - 1);
      SelfLink(s, base, big, len);
      AtEnd(s, base, 0, big, len, fuel - 1);
    }
  }

  lemma SelfLink(s: seq<Byte>, base: nat, big: bool, len: nat)
    requires 0 < base < len - 4 < 0x1_0000 && base + 6 <= |s| && LoadValue(s, base + 2, 4, big) == base
    ensures base < OffsetLimit(len) && Position(base, 0) == base + 2 && Load(s, base + 2, 4) != 0
  {
    hide Load;
  }

  /** What a child directory's reading returned does not matter to its parent, be it complete or cut off
      by a bad offset, a bad count or a refused entry: the parent goes on with its next entry in the
      buffer as it then is. Only what does not return at all ends it too. */
  lemma ChildResultIgnored(s: seq<Byte>, base: nat, i: nat, n: nat, big: bool, len: nat, fuel: nat, child: nat)
    requires i < n && InLimit(s, Position(base, i), len)
    requires ConvertAndRead(s, Position(base, i), big, len).0 == Decoded(TiffData(4, 1, [child]))
    requires var tag := Load(ConvertAndRead(s, Position(base, i), big, len).1, Position(base, i), 2);
             tag == 34665 || tag == 34853 || tag == 40965
    ensures var below := ReadIfd(ConvertAndRead(s, Position(base, i), big, len).1, child, big, len, fuel);
            var rest := ReadFrom(below.buffer, base, i + 1, n, big, len, fuel);
            && (below.stop == Complete || below.stop == InvalidOffset || below.stop == InvalidCount ||
                below.stop == EntryFailed(BadType) || below.stop == EntryFailed(Result.OutOfBounds) ==>
                  ReadFrom(s, base, i, n, big, len, fuel) ==
                  Reading(rest.stop, below.shown + rest.shown, rest.buffer))
            && (below.stop == OutsideBuffer || below.stop == AssertionFailed || below.stop == OutOfFuel ||
                below.stop == EntryFailed(Undefined) ==>
                  ReadFrom(s, base, i, n, big, len, fuel) == below)
  {
    AtPointer(s, base, i, n, big, len, fuel);
    hide ReadFrom, ReadIfd, ConvertAndRead, Load, InLimit, Position;
  }

  /** The bounds that reading keeps to: a directory starts before the last four bytes, an entry ends
      before the last byte, and only what ends later is refused for it. */
  lemma RefusedIff(s: seq<Byte>, base: nat, i: nat, n: nat, big: bool, len: nat, fuel: nat)
    requires 12 <= len < 0x1_0000 && len <= |s| && base < len && i < n < 0x1_0000
    ensures ReadIfd(s, base, big, len, fuel + 1) ==
            if base + 4 >= len then Reading(InvalidOffset, [], s)
            else ReadFrom(s, base, 0, LoadValue(s, base, 2, big), big, len, fuel)
    ensures base + 2 + 12 * i + 12 >= len ==>
              ReadFrom(s, base, i, n, big, len, fuel) == Reading(InvalidCount, [], s)
    ensures base + 2 + 12 * i + 12 < len ==>
              var (r, t) := ConvertAndRead(s, base + 2 + 12 * i, big, len);
              && (!r.Decoded? ==> ReadFrom(s, base, i, n, big, len, fuel) == Reading(EntryFailed(r), [], t))
              && (r.Decoded? && !IsPointer(Load(t, base + 2 + 12 * i, 2)) ==>
                    ReadFrom(s, base, i, n, big, len, fuel) ==
                    ReadFrom(t, base, i + 1, n, big, len, fuel).After([(Load(t, base + 2 + 12 * i, 2), r.data)]))
  {
    hide *;
    PlacesAre(base, i, len);
    AtHead(s, base, big, len, fuel + 1);
    var pos := base + 2 + 12 * i;
    if pos + 12 >= len {
      OutOfLimit(s, pos, len);
      AtLimit(s, base, i, n, big, len, fuel);
    } else {
      WithinLimit(s, pos, len);
      var (r, t) := ConvertAndRead(s, pos, big, len);
      if !r.Decoded? {
        AtFailure(s, base, i, n, big, len, fuel);
      } else if !IsPointer(Load(t, pos, 2)) {
        AtPlain(s, base, i, n, big, len, fuel);
      }
    }
  }

  lemma PlacesAre(base: nat, i: nat, len: nat)
    requires 12 <= len < 0x1_0000 && base < len && i < 0x1_0000
    ensures OffsetLimit(len) == len - 4 && Position(base, i) == base + 2 + 12 * i
  {
  }

  lemma OutOfLimit(s: seq<Byte>, pos: nat, len: nat)
    requires 12 <= len < 0x1_0000 && pos + 12 >= len
    ensures !InLimit(s, pos, len) && pos >= EntryLimit(len)
  {
  }

  lemma WithinLimit(s: seq<Byte>, pos: nat, len: nat)
    requires 12 <= len < 0x1_0000 && len <= |s| && pos + 12 < len
    ensures InLimit(s, pos, len) && pos + ENTRY_SIZE <= |s| && pos + 2 <= |s|
  {
  }
}
