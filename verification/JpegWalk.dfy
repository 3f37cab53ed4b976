/** The JPEG segment walker over a seekable file, its default handlers, and a serializer whose
    output it takes apart again. Markers and entropy coding follow ITU-T T.81 section B.1.1. */
module JpegWalk {
  import opened Bits
  import opened ByteOrder
  import opened Prelude

  const SOI: Byte := 0xD8
  const EOI: Byte := 0xD9
  const SOS: Byte := 0xDA
  const RST0: Byte := 0xD0
  const RST7: Byte := 0xD7

  datatype Handler = Absent | SkipLength | SkipScan

  /** One handler per marker code. */
  type Handlers = h: seq<Handler> | |h| == 256 witness seq(256, i => Absent)

  function DefaultHandlers(): Handlers
  {
    seq(256, i requires 0 <= i < 256 => if i == SOS then SkipScan else SkipLength)
  }

  /** A handler call: the marker and the file position right after it. */
  datatype Dispatch = Dispatch(marker: Byte, at: nat)

  /** The five ways out of the walk; `EndOfFile` is the one behind the loop. */
  datatype Exit = BrokenMarker | InvalidMarker | NotJpeg | EndOfImage | HandlerFailed | EndOfFile

  datatype Walked = Walked(exit: Exit, ok: bool, calls: seq<Dispatch>)

  // ----- numbers in the file -----

  /** Two file bytes read into a little-endian `u16` and swapped. */
  function Length(b0: Byte, b1: Byte): (r: nat)
  {
    Swap16(FromLE([b0, b1]))
  }

  lemma LengthIsBigEndian(b0: Byte, b1: Byte)
    ensures Length(b0, b1) == 256 * b0 + b1
  {
    assert FromLE([b0, b1]) == b0 + 256 * FromLE([b1]);
    assert FromLE([b1]) == b1 + 256 * FromLE([]);
  }

  /** An unsigned 64-bit value passed where a `long` is expected. */
  function AsLong(v: nat): int
  {
    if v < WORD64 / 2 then v else v - WORD64
  }

  /** `len_field - sizeof(len_field)` in unsigned arithmetic, then as an offset: lengths 0 and 1
      seek backwards. */
  function SkipOffset(len: nat): (r: int)
    requires len < 65536
    ensures r == len - 2
  {
    AsLong((len + WORD64 - 2) % WORD64)
  }

  // ----- what a handler does -----

  predicate Ordinary(c: Byte)
  {
    c == 0 || RST0 <= c <= RST7
  }

  /** A marker that ends entropy-coded data starts at p. */
  predicate IsStop(data: seq<Byte>, p: nat)
  {
    p + 1 < |data| && data[p] == 0xFF && !Ordinary(data[p + 1])
  }

  /** The first such place at or after p. */
  function NextStop(data: seq<Byte>, p: nat): (r: Option<nat>)
    ensures r.Some? ==> p <= r.value && r.value + 1 < |data|
    decreases |data| - p
  {
    if p + 1 >= |data| then None
    else if IsStop(data, p) then Some(p)
    else NextStop(data, p + 1)
  }

  lemma {:induction false} NextStopIsFirst(data: seq<Byte>, p: nat, q: nat)
    ensures NextStop(data, p) == Some(q) <==>
            && p <= q && q + 1 < |data|
            && data[q] == 0xFF && data[q + 1] != 0 && !(0xD0 <= data[q + 1] <= 0xD7)
            && forall i :: p <= i < q && data[i] == 0xFF ==> data[i + 1] == 0 || 0xD0 <= data[i + 1] <= 0xD7
    decreases |data| - p
  {
    if p + 1 < |data| && !IsStop(data, p) {
      NextStopIsFirst(data, p + 1, q);
    }
  }

  lemma {:induction false} NoStop(data: seq<Byte>, p: nat)
    ensures NextStop(data, p) == None <==>
            forall i :: p <= i < |data| - 1 && data[i] == 0xFF ==> data[i + 1] == 0 || 0xD0 <= data[i + 1] <= 0xD7
    decreases |data| - p
  {
    if p + 1 < |data| && !IsStop(data, p) {
      NoStop(data, p + 1);
    }
  }

  /** The search by one or two bytes at a time. */
  lemma SearchAdvances(data: seq<Byte>, p: nat)
    ensures p + 1 >= |data| ==> NextStop(data, p) == None
    ensures p < |data| && data[p] != 0xFF ==> NextStop(data, p) == NextStop(data, p + 1)
    ensures p + 1 < |data| && data[p] == 0xFF && Ordinary(data[p + 1]) ==>
              NextStop(data, p) == NextStop(data, p + 2)
    ensures p + 1 < |data| && data[p] == 0xFF && !Ordinary(data[p + 1]) ==> NextStop(data, p) == Some(p)
  {
    if p + 1 < |data| && data[p] == 0xFF && Ordinary(data[p + 1]) {
      assert !IsStop(data, p) && !IsStop(data, p + 1);
      assert NextStop(data, p) == NextStop(data, p + 1);
    }
  }

  /** Where a handler entered at p leaves the file, if it succeeds. */
  function Handled(data: seq<Byte>, h: Handler, p: nat): (r: Option<nat>)
    ensures r.Some? ==> p <= r.value
  {
    if h == Absent then Some(p)
    else if p + 2 > |data| then None
    else
      LengthIsBigEndian(data[p], data[p + 1]);
      var next := p + Length(data[p], data[p + 1]);
      if h == SkipLength then Some(next) else NextStop(data, next)
  }

  lemma AbsentStays(data: seq<Byte>, p: nat)
    ensures Handled(data, Absent, p) == Some(p)
  {
  }

  // ----- the walk -----

  /** Each round consumes at least the marker, so the walk ends on every file. */
  function WalkFrom(data: seq<Byte>, ops: Handlers, p: nat, seenSoi: bool): Walked
    decreases |data| - p
  {
    if p + 2 > |data| then Walked(BrokenMarker, seenSoi, [])
    else if data[p] != 0xFF then Walked(InvalidMarker, seenSoi, [])
    else if data[p + 1] == SOI then WalkFrom(data, ops, p + 2, true)
    else if !seenSoi then Walked(NotJpeg, false, [])
    else if data[p + 1] == EOI then Walked(EndOfImage, true, [])
    else
      var h := ops[data[p + 1]];
      var next := Handled(data, h, p + 2);
      var calls := if h == Absent then [] else [Dispatch(data[p + 1], p + 2)];
      if next.None? then Walked(HandlerFailed, false, calls)
      else
        var w := WalkFrom(data, ops, next.value, true);
        w.(calls := calls + w.calls)
  }

  /** The default table: every entry skips by length, the one for SOS skips its scan. */
  method NewHandlers() returns (ops: array<Handler>)
    ensures fresh(ops) && ops[..] == DefaultHandlers()
  {
    ops := new Handler[256](i => Absent);
    for i := 0 to 256
      invariant forall k :: 0 <= k < i ==> ops[k] == SkipLength
    {
      ops[i] := SkipLength;
    }
    ops[SOS] := SkipScan;
  }

  class JpegFile {
    const data: seq<Byte>
    const ops: Handlers
    var pos: nat
    var eof: bool

    constructor (bytes: seq<Byte>, handlers: Handlers)
      ensures data == bytes && ops == handlers && pos == 0 && !eof
    {
      data, ops, pos, eof := bytes, handlers, 0, false;
    }

    /** `fread` of one item of n bytes; a short read consumes what is left and sets the flag. */
    method Fread(n: nat) returns (ok: bool, bytes: seq<Byte>)
      requires n > 0
      modifies this
      ensures ok <==> old(pos) + n <= |data|
      ensures ok ==> bytes == data[old(pos)..old(pos) + n] && pos == old(pos) + n && eof == old(eof)
      ensures !ok ==> bytes == [] && eof && pos >= old(pos)
    {
      if pos + n <= |data| {
        ok, bytes := true, data[pos..pos + n];
        pos := pos + n;
      } else {
        ok, bytes, eof := false, [], true;
        if pos < |data| {
          pos := |data|;
        }
      }
    }

    /** `fseek` from the current position; it may pass the end and clears the flag. */
    method SeekBy(offset: int)
      requires pos + offset >= 0
      modifies this
      ensures pos == old(pos) + offset && !eof
    {
      pos, eof := pos + offset, false;
    }

    method SkipSegment() returns (ok: bool)
      modifies this
      ensures ok == (Handled(data, SkipLength, old(pos)).Some?)
      ensures ok ==> pos == Handled(data, SkipLength, old(pos)).value && !eof
      ensures ok <==> old(pos) + 2 <= |data|
      ensures ok ==> var high: nat, low: nat := data[old(pos)], data[old(pos) + 1];
                     pos == old(pos) + 256 * high + low
    {
      var field;
      ok, field := Fread(2);
      if !ok {
        return;
      }
      LengthIsBigEndian(field[0], field[1]);
      assert field[0] == data[old(pos)] && field[1] == data[old(pos) + 1];
      SeekBy(SkipOffset(Swap16(FromLE([field[0], field[1]]))));
      assert Handled(data, SkipLength, old(pos)) == Some(pos);
    }

    /** Stops exactly at the first FF that no 00 and no restart code follows. */
    method SkipSos() returns (ok: bool)
      modifies this
      ensures ok == (Handled(data, SkipScan, old(pos)).Some?)
      ensures ok ==> pos == Handled(data, SkipScan, old(pos)).value && !eof
    {
      var field;
      ok, field := Fread(2);
      if !ok {
        return;
      }
      LengthIsBigEndian(field[0], field[1]);
      SeekBy(SkipOffset(Swap16(FromLE([field[0], field[1]]))));
      ghost var target := NextStop(data, pos);
      assert Handled(data, SkipScan, old(pos)) == target;
      hide *;
      while !eof
        invariant !eof && NextStop(data, pos) == target
        decreases |data| - pos
      {
        SearchAdvances(data, pos);
        var c;
        ok, c := Fread(1);
        if !ok {
          break;
        }
        if c[0] == 0xFF {
          ok, c := Fread(1);
          if !ok {
            break;
          }
          if Ordinary(c[0]) {
            continue;
          } else {
            SeekBy(-2);
            return true;
          }
        }
      }
      ok := false;
    }

    method CallHandler(h: Handler) returns (ok: bool)
      requires h != Absent
      modifies this
      ensures ok == (Handled(data, h, old(pos)).Some?)
      ensures ok ==> pos == Handled(data, h, old(pos)).value && !eof
    {
      if h == SkipLength {
        ok := SkipSegment();
      } else {
        ok := SkipSos();
      }
    }

    /** The walk does what the specification says; the end-of-file flag is never set when the loop
        tests it, so the exit behind the loop is not taken. */
    method Walk() returns (w: Walked)
      modifies this
      ensures w == WalkFrom(data, ops, 0, false)
    {
      hide Handled;
      pos, eof := 0, false;
      var encountSoi := false;
      var calls: seq<Dispatch> := [];
      ghost var whole := WalkFrom(data, ops, 0, false);
      assert whole.(calls := [] + whole.calls) == whole;
      while !eof
        invariant !eof
        invariant var rest := WalkFrom(data, ops, pos, encountSoi);
                  whole == rest.(calls := calls + rest.calls)
        decreases |data| - pos
      {
        ghost var rest := WalkFrom(data, ops, pos, encountSoi);
        assert calls + [] == calls;
        var ok, marker := Fread(2);
        if !ok {
          return Walked(BrokenMarker, encountSoi, calls);
        }
        if marker[0] != 0xFF {
          return Walked(InvalidMarker, encountSoi, calls);
        }
        if marker[1] == SOI {
          encountSoi := true;
          continue;
        } else if !encountSoi {
          return Walked(NotJpeg, false, calls);
        } else if marker[1] == EOI {
          return Walked(EndOfImage, true, calls);
        }
        if ops[marker[1]] != Absent {
          ghost var before := calls;
          calls := calls + [Dispatch(marker[1], pos)];
          ok := CallHandler(ops[marker[1]]);
          if !ok {
            return Walked(HandlerFailed, false, calls);
          }
          ghost var after := WalkFrom(data, ops, pos, true);
          Associative(before, [calls[|before|]], after.calls);
        } else {
          AbsentStays(data, pos);
          ghost var after := WalkFrom(data, ops, pos, true);
          assert [] + after.calls == after.calls;
        }
      }
      assert false;
      w := Walked(EndOfFile, true, calls);
    }
  }

  // ----- files of any content -----

  /** Every handler call is made right behind a marker of that code, further on than the last. */
  ghost predicate CallsAtMarkers(data: seq<Byte>, calls: seq<Dispatch>, from: nat)
  {
    && (forall i :: 0 <= i < |calls| ==>
          && from + 2 <= calls[i].at <= |data|
          && data[calls[i].at - 2] == 0xFF && data[calls[i].at - 1] == calls[i].marker
          && calls[i].marker != 0xD8 && calls[i].marker != 0xD9)
    && (forall i, j :: 0 <= i < j < |calls| ==> calls[i].at + 2 <= calls[j].at)
  }

  /** One round of the walk from p to q: over an SOI, or, once an SOI has been seen, over a marker other
      than EOI and as far as its handler goes. */
  predicate Round(data: seq<Byte>, ops: Handlers, p: nat, q: nat, seenSoi: bool)
  {
    && p + 2 <= |data| && data[p] == 0xFF
    && if data[p + 1] == 0xD8 then q == p + 2
       else seenSoi && data[p + 1] != 0xD9 && Handled(data, ops[data[p + 1]], p + 2) == Some(q)
  }

  /** The places ps follow each other by such rounds. */
  predicate Trail(data: seq<Byte>, ops: Handlers, ps: seq<nat>, seenSoi: bool)
  {
    ps != [] && (|ps| > 1 ==> Round(data, ops, ps[0], ps[1], seenSoi) && Trail(data, ops, ps[1..], true))
  }

  /** The handler call made at p, if there is a marker with a handler. */
  function CallAt(data: seq<Byte>, ops: Handlers, p: nat): seq<Dispatch>
  {
    if p + 2 <= |data| && data[p] == 0xFF && data[p + 1] != 0xD8 && data[p + 1] != 0xD9 &&
       ops[data[p + 1]] != Absent
    then [Dispatch(data[p + 1], p + 2)] else []
  }

  function CallsAlong(data: seq<Byte>, ops: Handlers, ps: seq<nat>): seq<Dispatch>
  {
    if ps == [] then [] else CallAt(data, ops, ps[0]) + CallsAlong(data, ops, ps[1..])
  }

  /** Why the walk ends at p, told from the bytes there. */
  ghost predicate EndsAt(data: seq<Byte>, ops: Handlers, p: nat, seenSoi: bool, exit: Exit)
  {
    match exit
    case BrokenMarker => p + 2 > |data|
    case InvalidMarker => p + 2 <= |data| && data[p] != 0xFF
    case NotJpeg => p + 2 <= |data| && data[p] == 0xFF && data[p + 1] != 0xD8 && !seenSoi
    case EndOfImage => p + 2 <= |data| && data[p] == 0xFF && data[p + 1] == 0xD9 && seenSoi
    case HandlerFailed =>
      && p + 2 <= |data| && data[p] == 0xFF && data[p + 1] != 0xD8 && data[p + 1] != 0xD9 && seenSoi
      && Handled(data, ops[data[p + 1]], p + 2) == None
    case EndOfFile => false
  }

  /** The walk ends with w after the trail ps. */
  ghost predicate Follows(data: seq<Byte>, ops: Handlers, ps: seq<nat>, seenSoi: bool, w: Walked)
  {
    && Trail(data, ops, ps, seenSoi)
    && var seen := seenSoi || |ps| > 1;
    && EndsAt(data, ops, ps[|ps| - 1], seen, w.exit)
    && w.ok == (seen && w.exit != HandlerFailed)
    && w.calls == if w.exit == NotJpeg then [] else CallsAlong(data, ops, ps)
  }

  lemma NoRound(data: seq<Byte>, ops: Handlers, p: nat, seenSoi: bool)
    ensures Trail(data, ops, [p], seenSoi) && CallsAlong(data, ops, [p]) == CallAt(data, ops, p)
  {
    assert CallsAlong(data, ops, [p]) == CallAt(data, ops, p) + [];
    hide CallAt;
  }

  lemma WalkStops(data: seq<Byte>, ops: Handlers, p: nat, seenSoi: bool)
    ensures Follows(data, ops, [p], seenSoi, WalkFrom(data, ops, p, seenSoi)) ||
            exists q :: p + 2 <= q && Round(data, ops, p, q, seenSoi)
  {
    NoRound(data, ops, p, seenSoi);
    hide Handled, Trail, CallsAlong;
    if p + 2 <= |data| && data[p] == 0xFF {
      if data[p + 1] == SOI {
        assert Round(data, ops, p, p + 2, seenSoi);
      } else if seenSoi && data[p + 1] != EOI {
        var next := Handled(data, ops[data[p + 1]], p + 2);
        if next.Some? {
          assert Round(data, ops, p, next.value, seenSoi);
        }
      }
    }
  }

  lemma WalkGoesOn(data: seq<Byte>, ops: Handlers, p: nat, q: nat, seenSoi: bool)
    requires Round(data, ops, p, q, seenSoi)
    ensures p + 2 <= q && p + 2 <= |data|
    ensures var w := WalkFrom(data, ops, q, true);
            WalkFrom(data, ops, p, seenSoi) == w.(calls := CallAt(data, ops, p) + w.calls)
  {
    var w := WalkFrom(data, ops, q, true);
    assert [] + w.calls == w.calls;
    hide Handled;
  }

  lemma FollowsOneMore(data: seq<Byte>, ops: Handlers, p: nat, rest: seq<nat>, seenSoi: bool, w: Walked)
    requires Follows(data, ops, rest, true, w) && rest != [] && Round(data, ops, p, rest[0], seenSoi)
    ensures Follows(data, ops, [p] + rest, seenSoi, w.(calls := CallAt(data, ops, p) + w.calls))
  {
    hide Round, CallAt;
    var ps := [p] + rest;
    assert ps[1..] == rest && ps[|ps| - 1] == rest[|rest| - 1];
  }

  lemma {:induction false} WalkFollowsTrail(data: seq<Byte>, ops: Handlers, p: nat, seenSoi: bool)
    returns (ps: seq<nat>)
    ensures |ps| > 0 && ps[0] == p && Follows(data, ops, ps, seenSoi, WalkFrom(data, ops, p, seenSoi))
    decreases |data| - p
  {
    hide *;
    WalkStops(data, ops, p, seenSoi);
    ps := [p];
    if q :| p + 2 <= q && Round(data, ops, p, q, seenSoi) {
      WalkGoesOn(data, ops, p, q, seenSoi);
      var rest := WalkFollowsTrail(data, ops, q, true);
      FollowsOneMore(data, ops, p, rest, seenSoi, WalkFrom(data, ops, q, true));
      ps := ps + rest;
    }
  }

  /** The bytes at the end of the walk admit one exit only. */
  lemma OneExit(data: seq<Byte>, ops: Handlers, p: nat, seenSoi: bool, exit: Exit, other: Exit)
    requires EndsAt(data, ops, p, seenSoi, exit) && EndsAt(data, ops, p, seenSoi, other)
    ensures exit == other
  {
  }

  /** For every file and table: the walk goes from place to place by its rounds, and the bytes at the
      last place decide how it ends, by FF D9 behind an SOI in particular; handlers are called only at
      markers, at least two bytes apart; only a file that starts with SOI has anything handled; and
      the result is false exactly when the file does not start with SOI or a handler ran out of file. */
  lemma WalkIsSound(data: seq<Byte>, ops: Handlers) returns (ps: seq<nat>)
    ensures Trail(data, ops, ps, false) && ps[0] == 0
    ensures var w, last := WalkFrom(data, ops, 0, false), ps[|ps| - 1];
            && EndsAt(data, ops, last, |ps| > 1, w.exit)
            && w.calls == (if w.exit == NotJpeg then [] else CallsAlong(data, ops, ps))
            && (w.exit == EndOfImage <==>
                  |ps| > 1 && last + 2 <= |data| && data[last] == 0xFF && data[last + 1] == 0xD9)
            && CallsAtMarkers(data, w.calls, 0)
            && w.exit != EndOfFile
            && (!w.ok <==> w.exit == HandlerFailed || !(|data| >= 2 && data[0] == 0xFF && data[1] == 0xD8))
            && (w.calls != [] ==> |data| >= 2 && data[0] == 0xFF && data[1] == 0xD8)
  {
    ps := WalkFollowsTrail(data, ops, 0, false);
    WalkKeepsPlace(data, ops, 0, false);
    if |data| >= 2 && data[0] == 0xFF && data[1] == SOI {
      WalkKeepsPlace(data, ops, 2, true);
    }
  }

  lemma CallsShift(data: seq<Byte>, calls: seq<Dispatch>, p: nat, q: nat)
    requires CallsAtMarkers(data, calls, q) && p + 2 <= q
    ensures CallsAtMarkers(data, calls, p)
    ensures p + 2 <= |data| && data[p] == 0xFF && data[p + 1] != SOI && data[p + 1] != EOI ==>
              CallsAtMarkers(data, [Dispatch(data[p + 1], p + 2)] + calls, p)
  {
  }

  lemma NoCalls(data: seq<Byte>, p: nat)
    ensures CallsAtMarkers(data, [], p)
    ensures p + 2 <= |data| && data[p] == 0xFF && data[p + 1] != SOI && data[p + 1] != EOI ==>
              CallsAtMarkers(data, [Dispatch(data[p + 1], p + 2)], p)
  {
  }

  lemma {:induction false} WalkKeepsPlace(data: seq<Byte>, ops: Handlers, p: nat, seenSoi: bool)
    ensures var w := WalkFrom(data, ops, p, seenSoi);
            && CallsAtMarkers(data, w.calls, p)
            && w.exit != EndOfFile
            && (seenSoi ==> (!w.ok <==> w.exit == HandlerFailed))
    decreases |data| - p
  {
    hide CallsAtMarkers, Handled;
    NoCalls(data, p);
    if p + 2 <= |data| && data[p] == 0xFF {
      if data[p + 1] == SOI {
        WalkKeepsPlace(data, ops, p + 2, true);
        CallsShift(data, WalkFrom(data, ops, p + 2, true).calls, p, p + 2);
      } else if seenSoi && data[p + 1] != EOI {
        var next := Handled(data, ops[data[p + 1]], p + 2);
        if next.Some? {
          WalkKeepsPlace(data, ops, next.value, true);
          var calls := WalkFrom(data, ops, next.value, true).calls;
          CallsShift(data, calls, p, next.value);
          assert [] + calls == calls;
        }
      }
    }
  }

  // ----- serializing -----

  /** Entropy-coded data: plain bytes, a stuffed FF, and restart markers. */
  datatype Coded = Plain(b: Byte) | StuffedFF | Restart(n: nat)
  {
    predicate Valid()
    {
      match this
      case Plain(b) => b != 0xFF
      case StuffedFF => true
      case Restart(n) => n < 8
    }
  }

  datatype Segment =
    | Marked(marker: Byte, payload: seq<Byte>)
    | Scan(header: seq<Byte>, entropy: seq<Coded>)
  {
    function Code(): Byte
    {
      if Marked? then marker else 0xDA
    }
  }

  predicate AllCoded(cs: seq<Coded>)
  {
    forall j :: 0 <= j < |cs| ==> cs[j].Valid()
  }

  /** A segment with a length that fits; the codes of SOI, EOI and SOS, which are D8, D9 and DA, are not
      for plain segments. */
  predicate Codable(s: Segment)
  {
    if s.Marked?
    then s.marker != 0xD8 && s.marker != 0xD9 && s.marker != 0xDA && |s.payload| + 2 < 65536
    else |s.header| + 2 < 65536 && AllCoded(s.entropy)
  }

  /** Segments default handlers can walk: behind a scan, no code that reads as part of it. */
  predicate Valid(segs: seq<Segment>, afterScan: bool)
  {
    segs == [] ||
    (Codable(segs[0]) &&
     (afterScan && segs[0].Marked? ==> segs[0].marker != 0 && !(0xD0 <= segs[0].marker <= 0xD7)) &&
     Valid(segs[1..], segs[0].Scan?))
  }

  function Length16(n: nat): seq<Byte>
  {
    [(n / 256) % 256, n % 256]
  }

  function CodedBytes(c: Coded): seq<Byte>
    requires c.Valid()
  {
    match c
    case Plain(b) => [b]
    case StuffedFF => [0xFF, 0]
    case Restart(n) => [0xFF, 0xD0 + n]
  }

  function EntropyBytes(cs: seq<Coded>): seq<Byte>
    requires AllCoded(cs)
  {
    if cs == [] then [] else CodedBytes(cs[0]) + EntropyBytes(cs[1..])
  }

  function Body(s: Segment): seq<Byte>
  {
    if s.Marked? then s.payload else s.header
  }

  function ScanBytes(s: Segment): seq<Byte>
    requires Codable(s)
  {
    if s.Scan? then EntropyBytes(s.entropy) else []
  }

  /** Marker, length, what the length covers, entropy data. */
  function SegmentBytes(s: Segment): seq<Byte>
    requires Codable(s)
  {
    [0xFF, s.Code()] + (Length16(|Body(s)| + 2) + (Body(s) + ScanBytes(s)))
  }

  /** The segments, then EOI, then anything. */
  function BytesOf(segs: seq<Segment>, afterScan: bool, tail: seq<Byte>): seq<Byte>
    requires Valid(segs, afterScan)
  {
    if segs == [] then [0xFF, 0xD9] + tail
    else SegmentBytes(segs[0]) + BytesOf(segs[1..], segs[0].Scan?, tail)
  }

  function Serialize(segs: seq<Segment>, tail: seq<Byte>): seq<Byte>
    requires Valid(segs, false)
  {
    [0xFF, 0xD8] + BytesOf(segs, false, tail)
  }

  /** One call per segment, right behind its marker. */
  function Expected(segs: seq<Segment>, afterScan: bool, at: nat): seq<Dispatch>
    requires Valid(segs, afterScan)
  {
    if segs == [] then []
    else [Dispatch(segs[0].Code(), at + 2)] + Expected(segs[1..], segs[0].Scan?, at + |SegmentBytes(segs[0])|)
  }

  // ----- the round trip -----

  /** No stop starts inside one piece of entropy data. */
  lemma CodedHasNoStop(data: seq<Byte>, p: nat, c: Coded)
    requires c.Valid() && At(data, p, CodedBytes(c)) && p + |CodedBytes(c)| + 1 < |data|
    ensures NextStop(data, p) == NextStop(data, p + |CodedBytes(c)|)
  {
    AtByte(data, p, CodedBytes(c), 0);
    if c.Plain? {
      assert !IsStop(data, p);
    } else {
      AtByte(data, p, CodedBytes(c), 1);
      assert !IsStop(data, p) && !IsStop(data, p + 1);
      assert NextStop(data, p) == NextStop(data, p + 1);
    }
  }

  predicate StartsWithStop(bytes: seq<Byte>)
  {
    |bytes| >= 2 && bytes[0] == 0xFF && bytes[1] != 0 && !(0xD0 <= bytes[1] <= 0xD7)
  }

  lemma StopHere(data: seq<Byte>, p: nat, rest: seq<Byte>)
    requires At(data, p, EntropyBytes([]) + rest) && StartsWithStop(rest)
    ensures NextStop(data, p) == Some(p) && EntropyBytes([]) == []
  {
    assert EntropyBytes([]) + rest == rest;
    AtByte(data, p, rest, 0);
    AtByte(data, p, rest, 1);
  }

  /** Entropy data holds no stop, and none appears where it meets the next marker. */
  lemma {:induction false} EntropyHasNoStop(data: seq<Byte>, p: nat, cs: seq<Coded>, rest: seq<Byte>)
    requires AllCoded(cs) && At(data, p, EntropyBytes(cs) + rest) && StartsWithStop(rest)
    ensures NextStop(data, p) == Some(p + |EntropyBytes(cs)|)
    decreases |cs|
  {
    hide *;
    if cs == [] {
      StopHere(data, p, rest);
    } else {
      EntropySplits(data, p, cs, rest);
      CodedHasNoStop(data, p, cs[0]);
      EntropyHasNoStop(data, p + |CodedBytes(cs[0])|, cs[1..], rest);
    }
  }

  lemma EntropySplits(data: seq<Byte>, p: nat, cs: seq<Coded>, rest: seq<Byte>)
    requires AllCoded(cs) && cs != [] && At(data, p, EntropyBytes(cs) + rest) && StartsWithStop(rest)
    ensures cs[0].Valid() && AllCoded(cs[1..])
    ensures var first := CodedBytes(cs[0]);
            && At(data, p, first) && At(data, p + |first|, EntropyBytes(cs[1..]) + rest)
            && p + |first| + 1 < |data| && |EntropyBytes(cs)| == |first| + |EntropyBytes(cs[1..])|
  {
    var first, more := CodedBytes(cs[0]), EntropyBytes(cs[1..]);
    assert EntropyBytes(cs) == first + more;
    Associative(first, more, rest);
    hide EntropyBytes, CodedBytes, At;
    AtSplit(data, p, first, more + rest);
    AtByte(data, p + |first|, more + rest, 1);
  }

  lemma LengthRoundTrip(n: nat)
    requires n < 65536
    ensures Length(Length16(n)[0], Length16(n)[1]) == n
  {
    LengthIsBigEndian(Length16(n)[0], Length16(n)[1]);
  }

  /** What follows a scan starts with a stop. */
  lemma NextStartsWithStop(segs: seq<Segment>, tail: seq<Byte>)
    requires Valid(segs, true)
    ensures StartsWithStop(BytesOf(segs, true, tail))
  {
  }

  /** A handler behind a marker, its length field holding n. */
  lemma HandledByLength(data: seq<Byte>, h: Handler, p: nat, n: nat)
    requires h != Absent && n < 65536 && At(data, p, Length16(n))
    ensures Handled(data, h, p) == if h == SkipLength then Some(p + n) else NextStop(data, p + n)
  {
    AtByte(data, p, Length16(n), 0);
    AtByte(data, p, Length16(n), 1);
    LengthRoundTrip(n);
    hide NextStop, Length, At;
  }

  function HandlerFor(s: Segment): Handler
  {
    if s.Scan? then SkipScan else SkipLength
  }

  lemma DefaultHandler(s: Segment)
    requires Codable(s)
    ensures DefaultHandlers()[s.Code()] == HandlerFor(s) != Absent && s.Code() != SOI && s.Code() != EOI
  {
  }

  /** A segment's bytes start with its marker and length; the length leads to its entropy data. */
  lemma SegmentLayout(data: seq<Byte>, p: nat, s: Segment, rest: seq<Byte>)
    requires Codable(s) && At(data, p, SegmentBytes(s) + rest)
    ensures var n := |Body(s)| + 2;
            && n < 65536 && |SegmentBytes(s)| == 2 + n + |ScanBytes(s)|
            && At(data, p, [0xFF, s.Code()]) && At(data, p + 2, Length16(n))
            && At(data, p + 2 + n, ScanBytes(s) + rest)
  {
    hide *;
    SegmentShape(s);
    var marker, length, body, scan := [0xFF, s.Code()], Length16(|Body(s)| + 2), Body(s), ScanBytes(s);
    Associative(marker, length + (body + scan), rest);
    Associative(length, body + scan, rest);
    Associative(body, scan, rest);
    AtSplit(data, p, marker, length + (body + scan) + rest);
    AtSplit(data, p + 2, length, body + scan + rest);
    AtSplit(data, p + 4, body, scan + rest);
  }

  lemma SegmentShape(s: Segment)
    requires Codable(s)
    ensures |Body(s)| + 2 < 65536 && |Length16(|Body(s)| + 2)| == 2
    ensures SegmentBytes(s) == [0xFF, s.Code()] + (Length16(|Body(s)| + 2) + (Body(s) + ScanBytes(s)))
    ensures |SegmentBytes(s)| == 4 + |Body(s)| + |ScanBytes(s)|
  {
    hide EntropyBytes;
  }

  /** The handler for a segment takes the file to the next one. */
  lemma HandlerSkipsSegment(data: seq<Byte>, p: nat, s: Segment, rest: seq<Byte>)
    requires Codable(s) && At(data, p, SegmentBytes(s) + rest)
    requires s.Scan? ==> StartsWithStop(rest)
    ensures At(data, p, [0xFF, s.Code()])
    ensures Handled(data, HandlerFor(s), p + 2) == Some(p + |SegmentBytes(s)|)
  {
    hide Handled, NextStop, EntropyBytes, SegmentBytes, At, Length16;
    SegmentLayout(data, p, s, rest);
    var n := |Body(s)| + 2;
    HandledByLength(data, HandlerFor(s), p + 2, n);
    if s.Scan? {
      EntropyHasNoStop(data, p + 2 + n, s.entropy, rest);
    }
  }

  /** One round of the walk over a marker that is neither SOI nor EOI. */
  lemma WalkRound(data: seq<Byte>, ops: Handlers, p: nat, m: Byte, next: nat)
    requires At(data, p, [0xFF, m]) && m != SOI && m != EOI
    requires ops[m] != Absent && Handled(data, ops[m], p + 2) == Some(next)
    ensures p + 2 <= next
    ensures var w := WalkFrom(data, ops, next, true);
            WalkFrom(data, ops, p, true) == w.(calls := [Dispatch(m, p + 2)] + w.calls)
  {
    AtByte(data, p, [0xFF, m], 0);
    AtByte(data, p, [0xFF, m], 1);
    hide Handled, At;
  }

  lemma Unfold(segs: seq<Segment>, afterScan: bool, p: nat, tail: seq<Byte>)
    requires Valid(segs, afterScan) && segs != []
    ensures Codable(segs[0]) && Valid(segs[1..], segs[0].Scan?)
    ensures BytesOf(segs, afterScan, tail) == SegmentBytes(segs[0]) + BytesOf(segs[1..], segs[0].Scan?, tail)
    ensures Expected(segs, afterScan, p) ==
            [Dispatch(segs[0].Code(), p + 2)] + Expected(segs[1..], segs[0].Scan?, p + |SegmentBytes(segs[0])|)
    ensures segs[0].Scan? ==> StartsWithStop(BytesOf(segs[1..], segs[0].Scan?, tail))
  {
    hide SegmentBytes;
    if segs[0].Scan? {
      NextStartsWithStop(segs[1..], tail);
    }
  }

  /** The walk's round for one segment leads to the bytes behind it. */
  lemma WalkOneSegment(data: seq<Byte>, p: nat, s: Segment, rest: seq<Byte>)
    requires Codable(s) && At(data, p, SegmentBytes(s) + rest) && (s.Scan? ==> StartsWithStop(rest))
    ensures var next := p + |SegmentBytes(s)|;
            && At(data, next, rest)
            && var w := WalkFrom(data, DefaultHandlers(), next, true);
               WalkFrom(data, DefaultHandlers(), p, true) == w.(calls := [Dispatch(s.Code(), p + 2)] + w.calls)
  {
    hide *;
    HandlerSkipsSegment(data, p, s, rest);
    DefaultHandler(s);
    WalkRound(data, DefaultHandlers(), p, s.Code(), p + |SegmentBytes(s)|);
    AtSplit(data, p, SegmentBytes(s), rest);
  }

  lemma WalkEnds(data: seq<Byte>, p: nat, afterScan: bool, tail: seq<Byte>)
    requires At(data, p, BytesOf([], afterScan, tail))
    ensures WalkFrom(data, DefaultHandlers(), p, true) == Walked(EndOfImage, true, Expected([], afterScan, p))
  {
    AtByte(data, p, [0xFF, 0xD9] + tail, 0);
    AtByte(data, p, [0xFF, 0xD9] + tail, 1);
    hide At, DefaultHandlers;
  }

  lemma {:induction false} WalkSegments(data: seq<Byte>, p: nat, segs: seq<Segment>, afterScan: bool, tail: seq<Byte>)
    requires Valid(segs, afterScan) && At(data, p, BytesOf(segs, afterScan, tail))
    ensures WalkFrom(data, DefaultHandlers(), p, true) == Walked(EndOfImage, true, Expected(segs, afterScan, p))
    decreases |segs|
  {
    hide *;
    if segs == [] {
      WalkEnds(data, p, afterScan, tail);
    } else {
      Unfold(segs, afterScan, p, tail);
      WalkOneSegment(data, p, segs[0], BytesOf(segs[1..], segs[0].Scan?, tail));
      WalkSegments(data, p + |SegmentBytes(segs[0])|, segs[1..], segs[0].Scan?, tail);
    }
  }

  /** Round trip: walking a serialized image, whatever follows its EOI, succeeds at that EOI and
      calls exactly the handlers of its segments, in order, at their offsets. */
  lemma WalkSerialized(segs: seq<Segment>, tail: seq<Byte>)
    requires Valid(segs, false)
    ensures WalkFrom(Serialize(segs, tail), DefaultHandlers(), 0, false) ==
            Walked(EndOfImage, true, Expected(segs, false, 2))
  {
    var data := Serialize(segs, tail);
    assert At(data, 2, BytesOf(segs, false, tail));
    assert data[0] == 0xFF && data[1] == 0xD8;
    hide Serialize, BytesOf, Expected, At, Handled, DefaultHandlers;
    WalkSegments(data, 2, segs, false, tail);
  }
}
