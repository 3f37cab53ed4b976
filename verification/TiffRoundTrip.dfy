/** Trees of TIFF directories as a writer lays them out, and what the reader makes of them. */
module TiffRoundTrip {
  import opened Bits
  import opened ByteOrder
  import opened TiffDirectory
  import opened TiffEntry

  // ----- what a writer lays out -----

  /** A directory at a position: its entries in order, a pointer entry with the directory it leads to,
      and the end of the list or the directory linked there. */
  datatype Dir = Dir(base: nat, tail: Tail)
  datatype Tail = Plain(entry: Entry, rest: Tail) | Sub(tag: nat, child: Dir, rest: Tail) | Last | Next(dir: Dir)

  function Pointer(tag: nat, base: nat): Entry
  {
    Entry(tag, LONG, 1, [base], 0, [])
  }

  function Count(t: Tail): nat
  {
    match t
    case Plain(_, rest) => 1 + Count(rest)
    case Sub(_, _, rest) => 1 + Count(rest)
    case Last => 0
    case Next(_) => 0
  }

  /** How deep the reader's activations get. */
  function Height(d: Dir): nat
  {
    1 + TailHeight(d.tail)
  }

  function TailHeight(t: Tail): nat
  {
    match t
    case Plain(_, rest) => TailHeight(rest)
    case Sub(_, child, rest) => if Height(child) < TailHeight(rest) then TailHeight(rest) else Height(child)
    case Last => 0
    case Next(dir) => Height(dir)
  }

  /** What a reader should show: pointer entries give way to their directory's. */
  function Shown(d: Dir): seq<(nat, TiffData)>
  {
    TailShown(d.tail)
  }

  function TailShown(t: Tail): seq<(nat, TiffData)>
  {
    match t
    case Plain(entry, rest) => [(entry.tag, entry.Meaning())] + TailShown(rest)
    case Sub(_, child, rest) => Shown(child) + TailShown(rest)
    case Last => []
    case Next(dir) => Shown(dir)
  }

  predicate Within(k: nat, at: nat, n: nat)
  {
    at <= k < at + n
  }

  function Bytes(at: nat, n: nat): set<nat>
  {
    set k: nat | k < at + n && Within(k, at, n)
  }

  /** The bytes that the directory and those below it take, without the values standing elsewhere. */
  function Tables(d: Dir): set<nat>
  {
    Bytes(d.base, 2) + TailTables(d.tail, d.base + 2)
  }

  function TailTables(t: Tail, pos: nat): set<nat>
  {
    match t
    case Plain(_, rest) => Bytes(pos, ENTRY_SIZE) + TailTables(rest, pos + ENTRY_SIZE)
    case Sub(_, child, rest) => Bytes(pos, ENTRY_SIZE) + Tables(child) + TailTables(rest, pos + ENTRY_SIZE)
    case Last => Bytes(pos, 4)
    case Next(dir) => Bytes(pos, 4) + Tables(dir)
  }

  /** The tables do not overlap. */
  predicate Apart(d: Dir)
  {
    Bytes(d.base, 2) !! TailTables(d.tail, d.base + 2) && TailApart(d.tail, d.base + 2)
  }

  predicate TailApart(t: Tail, pos: nat)
  {
    match t
    case Plain(_, rest) =>
      && Bytes(pos, ENTRY_SIZE) !! TailTables(rest, pos + ENTRY_SIZE)
      && TailApart(rest, pos + ENTRY_SIZE)
    case Sub(_, child, rest) =>
      && Bytes(pos, ENTRY_SIZE) !! Tables(child) !! TailTables(rest, pos + ENTRY_SIZE)
      && Apart(child) && TailApart(rest, pos + ENTRY_SIZE)
    case Last => true
    case Next(dir) => Bytes(pos, 4) !! Tables(dir) && Apart(dir)
  }

  /** The directory's count, entries and link stand in the buffer, values too long for their entry
      within the first len bytes and clear of all tables. */
  predicate StoredDir(s: seq<Byte>, d: Dir, big: bool, len: nat, tables: set<nat>)
  {
    && d.base < WORD32 && EntryPos(d.base, Count(d.tail)) + 4 <= len < 0x1_0000
    && At(s, d.base, Number(Count(d.tail), 2, big))
    && StoredTail(s, d.tail, d.base + 2, big, len, tables)
  }

  predicate StoredTail(s: seq<Byte>, t: Tail, pos: nat, big: bool, len: nat, tables: set<nat>)
  {
    match t
    case Plain(entry, rest) =>
      && entry.tag != 34665 && entry.tag != 34853 && entry.tag != 40965
      && StoredEntry(s, pos, entry, big, len, tables)
      && StoredTail(s, rest, pos + ENTRY_SIZE, big, len, tables)
    case Sub(tag, child, rest) =>
      && (tag == 34665 || tag == 34853 || tag == 40965)
      && StoredEntry(s, pos, Pointer(tag, child.base), big, len, tables)
      && StoredDir(s, child, big, len, tables) && StoredTail(s, rest, pos + ENTRY_SIZE, big, len, tables)
    case Last => At(s, pos, Number(0, 4, big))
    case Next(dir) =>
      dir.base > 0 && At(s, pos, Number(dir.base, 4, big)) && StoredDir(s, dir, big, len, tables)
  }

  predicate StoredEntry(s: seq<Byte>, pos: nat, e: Entry, big: bool, len: nat, tables: set<nat>)
  {
    && e.Valid() && At(s, pos, EntryBytes(e, big))
    && (!e.Inline() ==>
          && e.offset + e.Size() <= len
          && At(s, e.offset, Encoded(e.values, Width(e.type_), big))
          && Bytes(e.offset, e.Size()) !! tables)
  }

  /** A whole file's directories as laid out by their writer. */
  predicate StoredTree(s: seq<Byte>, d: Dir, big: bool, len: nat)
  {
    StoredDir(s, d, big, len, Tables(d)) && Apart(d)
  }

  /** The 64-bit swap, if it is used, keeps all values. */
  predicate DirSurvives(d: Dir, big: bool)
  {
    TailSurvives(d.tail, big)
  }

  predicate TailSurvives(t: Tail, big: bool)
  {
    match t
    case Plain(entry, rest) =>
      IsType(entry.type_) && Survives(entry.values, Width(entry.type_), big) && TailSurvives(rest, big)
    case Sub(_, child, rest) => DirSurvives(child, big) && TailSurvives(rest, big)
    case Last => true
    case Next(dir) => DirSurvives(dir, big)
  }

  // ----- what reading leaves alone -----

  predicate Same(s: seq<Byte>, t: seq<Byte>, changed: set<nat>)
  {
    |s| == |t| && forall k: nat :: k < |s| && k !in changed ==> s[k] == t[k]
  }

  lemma AtSame(s: seq<Byte>, t: seq<Byte>, changed: set<nat>, p: nat, b: seq<Byte>)
    requires Same(s, t, changed) && At(s, p, b) && Bytes(p, |b|) !! changed
    ensures At(t, p, b)
  {
    forall k: nat | p <= k < p + |b|
      ensures s[k] == t[k]
    {
      assert Within(k, p, |b|) && k in Bytes(p, |b|);
    }
    assert s[p..p + |b|] == t[p..p + |b|];
  }

  lemma ReadChangesEntry(s: seq<Byte>, pos: nat, big: bool, len: nat)
    requires pos + ENTRY_SIZE <= |s|
    ensures Same(s, ConvertAndRead(s, pos, big, len).1, Bytes(pos, ENTRY_SIZE))
  {
    hide ConvertAndRead;
    var t := ConvertAndRead(s, pos, big, len).1;
    forall k: nat | k < |s| && k !in Bytes(pos, ENTRY_SIZE)
      ensures s[k] == t[k]
    {
      assert s[k..k + 1] == [s[k]];
      ReadKeeps(s, pos, big, len, k, [s[k]]);
      assert t[k..k + 1][0] == s[k];
    }
  }

  lemma EntryKept(s: seq<Byte>, t: seq<Byte>, changed: set<nat>, pos: nat, e: Entry, big: bool, len: nat,
                  tables: set<nat>)
    requires Same(s, t, changed) && StoredEntry(s, pos, e, big, len, tables)
    requires changed <= tables && Bytes(pos, ENTRY_SIZE) !! changed
    ensures StoredEntry(t, pos, e, big, len, tables)
  {
    hide Same, At, EntryBytes, Encoded, Bytes, UnitSize;
    AtSame(s, t, changed, pos, EntryBytes(e, big));
    if !e.Inline() {
      SizeIsSpan(e);
      AtSame(s, t, changed, e.offset, Encoded(e.values, Width(e.type_), big));
    }
  }

  lemma {:induction false} DirKept(s: seq<Byte>, t: seq<Byte>, changed: set<nat>, d: Dir, big: bool, len: nat,
                                   tables: set<nat>)
    requires Same(s, t, changed) && StoredDir(s, d, big, len, tables)
    requires changed <= tables && Tables(d) !! changed
    ensures StoredDir(t, d, big, len, tables)
    decreases d
  {
    hide Same, At, Bytes, StoredTail, TailTables, Number;
    AtSame(s, t, changed, d.base, Number(Count(d.tail), 2, big));
    TailKept(s, t, changed, d.tail, d.base + 2, big, len, tables);
  }

  lemma {:induction false} TailKept(s: seq<Byte>, t: seq<Byte>, changed: set<nat>, tail: Tail, pos: nat, big: bool,
                                    len: nat, tables: set<nat>)
    requires Same(s, t, changed) && StoredTail(s, tail, pos, big, len, tables)
    requires changed <= tables && TailTables(tail, pos) !! changed
    ensures StoredTail(t, tail, pos, big, len, tables)
    decreases tail
  {
    hide Same, At, Bytes, Number, StoredEntry, StoredDir, Tables;
    match tail
    case Plain(entry, rest) =>
      EntryKept(s, t, changed, pos, entry, big, len, tables);
      TailKept(s, t, changed, rest, pos + ENTRY_SIZE, big, len, tables);
    case Sub(tag, child, rest) =>
      EntryKept(s, t, changed, pos, Pointer(tag, child.base), big, len, tables);
      DirKept(s, t, changed, child, big, len, tables);
      TailKept(s, t, changed, rest, pos + ENTRY_SIZE, big, len, tables);
    case Last =>
      AtSame(s, t, changed, pos, Number(0, 4, big));
    case Next(dir) =>
      AtSame(s, t, changed, pos, Number(dir.base, 4, big));
      DirKept(s, t, changed, dir, big, len, tables);
  }

  // ----- round trip -----

  /** Reading came to the end, changed no more than the given bytes, and showed as many values as
      expected: exactly those if nothing was lost. */
  predicate Reads(r: Reading, s: seq<Byte>, changed: set<nat>, shown: seq<(nat, TiffData)>, kept: bool)
  {
    r.stop == Complete && Same(s, r.buffer, changed) && |r.shown| == |shown| && (r.shown == shown <==> kept)
  }

  lemma SameThrough(s: seq<Byte>, t: seq<Byte>, u: seq<Byte>, a: set<nat>, b: set<nat>)
    requires Same(s, t, a) && Same(t, u, b)
    ensures Same(s, u, a + b)
  {
  }

  lemma SplitEqual<T>(a: seq<T>, b: seq<T>, c: seq<T>, d: seq<T>)
    requires |a| == |c|
    ensures a + b == c + d <==> a == c && b == d
  {
    assert (a + b)[..|a|] == a && (a + b)[|a|..] == b;
    assert (c + d)[..|c|] == c && (c + d)[|c|..] == d;
  }

  /** One part read after another. */
  lemma ReadsAfter(r: Reading, s: seq<Byte>, t: seq<Byte>, first: seq<(nat, TiffData)>, a: set<nat>,
                   x: seq<(nat, TiffData)>, b: set<nat>, y: seq<(nat, TiffData)>, p: bool, q: bool)
    requires Same(s, t, a) && |first| == |x| && (first == x <==> p) && Reads(r, t, b, y, q)
    ensures Reads(r.After(first), s, a + b, x + y, p && q)
  {
    hide Same;
    SameThrough(s, t, r.buffer, a, b);
    SplitEqual(first, r.shown, x, y);
  }

  /** What the reader gets from a stored entry. */
  lemma EntryReads(s: seq<Byte>, pos: nat, e: Entry, big: bool, len: nat, tables: set<nat>)
    requires StoredEntry(s, pos, e, big, len, tables) && Bytes(pos, ENTRY_SIZE) <= tables && len < 0x1_0000
    ensures pos + ENTRY_SIZE <= |s|
    ensures var (r, t) := ConvertAndRead(s, pos, big, len);
            && r.Decoded? && (r == Decoded(e.Meaning()) <==> Survives(e.values, Width(e.type_), big))
            && Load(t, pos, 2) == e.tag && Same(s, t, Bytes(pos, ENTRY_SIZE))
  {
    assert TiffEntry.Stored(s, pos, e, big, len, pos, pos + ENTRY_SIZE) by {
      Clear(s, pos, e, big, len, tables);
    }
    assert e.Valid() && At(s, pos, EntryBytes(e, big));
    hide *;
    EntryRoundTrip(s, pos, e, big, len, pos, pos + ENTRY_SIZE);
    ReadKeepsTag(s, pos, e, big, len);
    ReadChangesEntry(s, pos, big, len);
  }

  lemma Clear(s: seq<Byte>, pos: nat, e: Entry, big: bool, len: nat, tables: set<nat>)
    requires StoredEntry(s, pos, e, big, len, tables) && Bytes(pos, ENTRY_SIZE) <= tables && len < 0x1_0000
    ensures TiffEntry.Stored(s, pos, e, big, len, pos, pos + ENTRY_SIZE)
  {
    hide EntryBytes, Encoded, UnitSize, At;
    if !e.Inline() {
      Overlap(e.offset, e.Size(), pos, ENTRY_SIZE);
    }
  }

  lemma Overlap(a: nat, m: nat, b: nat, n: nat)
    requires Bytes(a, m) !! Bytes(b, n) && m > 0 && n > 0
    ensures a + m <= b || b + n <= a
  {
    if a < b + n && b < a + m {
      Meet(a, m, b, n);
    }
  }

  lemma Meet(a: nat, m: nat, b: nat, n: nat)
    requires a < b + n && b < a + m && m > 0 && n > 0
    ensures !(Bytes(a, m) !! Bytes(b, n))
  {
    var k := if a < b then b else a;
    assert Within(k, a, m) && Within(k, b, n);
    assert k in Bytes(a, m) && k in Bytes(b, n);
  }

  /** Everything that is known of the rest of a directory when its i-th entry is reached. */
  predicate Here(s: seq<Byte>, base: nat, i: nat, n: nat, t: Tail, big: bool, len: nat, tables: set<nat>)
  {
    var pos := EntryPos(base, i);
    && n == i + Count(t) && EntryPos(base, n) + 4 <= len < 0x1_0000
    && StoredTail(s, t, pos, big, len, tables) && TailApart(t, pos) && TailTables(t, pos) <= tables
  }

  lemma LastReads(s: seq<Byte>, base: nat, n: nat, big: bool, len: nat, tables: set<nat>, fuel: nat)
    requires Here(s, base, n, n, Last, big, len, tables)
    ensures Reads(ReadFrom(s, base, n, n, big, len, fuel), s, TailTables(Last, EntryPos(base, n)), [], true)
  {
    var pos := EntryPos(base, n);
    assert At(s, pos, Number(0, 4, big));
    hide At, Number, EntryPos, ReadFrom;
    AtFits(s, pos, Number(0, 4, big));
    assert Position(base, n) == pos;
    ZeroLoads(s, pos, big);
    AtEnd(s, base, n, big, len, fuel);
  }

  lemma ZeroLoads(s: seq<Byte>, pos: nat, big: bool)
    requires At(s, pos, Number(0, 4, big))
    ensures Load(s, pos, 4) == 0
  {
    ZeroBytes(big);
    FromToLE(0, 4);
    hide *;
    LoadAt(s, pos, Number(0, 4, big));
  }

  lemma ZeroBytes(big: bool)
    ensures Number(0, 4, big) == ToLE(0, 4)
  {
    var z: seq<Byte> := [0, 0, 0, 0];
    assert ToLE(0, 4) == z;
    hide ToLE;
    assert |Reversed(z)| == 4 && forall i :: 0 <= i < 4 ==> Reversed(z)[i] == z[3 - i];
  }

  lemma LinkLoads(s: seq<Byte>, pos: nat, link: nat, big: bool)
    requires 0 < link < WORD32 && At(s, pos, Number(link, 4, big))
    ensures pos + 4 <= |s| && Load(s, pos, 4) != 0 && LoadValue(s, pos, 4, big) == link
  {
    Pow256Values();
    LoadsOne(s, pos, link, 4, big);
    hide At, Number, Load;
  }

  lemma NextReads(s: seq<Byte>, base: nat, n: nat, dir: Dir, big: bool, len: nat, tables: set<nat>, fuel: nat)
    requires Here(s, base, n, n, Next(dir), big, len, tables)
    requires Reads(ReadIfd(s, dir.base, big, len, fuel), s, Tables(dir), Shown(dir), DirSurvives(dir, big))
    ensures Reads(ReadFrom(s, base, n, n, big, len, fuel), s, TailTables(Next(dir), EntryPos(base, n)),
                  TailShown(Next(dir)), TailSurvives(Next(dir), big))
  {
    hide *;
    NextParts(s, base, n, dir, big, len, tables);
    LinkLoads(s, EntryPos(base, n), dir.base, big);
    AtEnd(s, base, n, big, len, fuel);
    ReadsMore(ReadIfd(s, dir.base, big, len, fuel), s, Tables(dir), TailTables(Next(dir), EntryPos(base, n)),
              Shown(dir), DirSurvives(dir, big));
  }

  lemma NextParts(s: seq<Byte>, base: nat, n: nat, dir: Dir, big: bool, len: nat, tables: set<nat>)
    requires Here(s, base, n, n, Next(dir), big, len, tables)
    ensures 0 < dir.base < WORD32 && At(s, EntryPos(base, n), Number(dir.base, 4, big))
    ensures Position(base, n) == EntryPos(base, n)
    ensures Tables(dir) <= TailTables(Next(dir), EntryPos(base, n))
    ensures TailShown(Next(dir)) == Shown(dir) && TailSurvives(Next(dir), big) == DirSurvives(dir, big)
  {
    hide At, Number, Tables, Bytes, Apart, DirSurvives, Shown, StoredTail;
    assert EntryPos(base, n) < WORD32;
    hide EntryPos;
    NextStored(s, dir, EntryPos(base, n), big, len, tables);
  }

  lemma NextStored(s: seq<Byte>, dir: Dir, pos: nat, big: bool, len: nat, tables: set<nat>)
    requires StoredTail(s, Next(dir), pos, big, len, tables)
    ensures 0 < dir.base < WORD32 && At(s, pos, Number(dir.base, 4, big))
  {
    hide At, Number;
  }

  /** The rest of the directory once the entry at hand has been read and the buffer is t. */
  lemma RestHere(s: seq<Byte>, t: seq<Byte>, changed: set<nat>, base: nat, i: nat, n: nat, rest: Tail, big: bool,
                 len: nat, tables: set<nat>)
    requires i < n && Same(s, t, changed) && changed <= tables && TailTables(rest, EntryPos(base, i + 1)) !! changed
    requires Here(s, base, i + 1, n, rest, big, len, tables)
    ensures Here(t, base, i + 1, n, rest, big, len, tables)
  {
    hide Same, StoredTail, TailApart, TailTables, EntryPos;
    TailKept(s, t, changed, rest, EntryPos(base, i + 1), big, len, tables);
  }

  lemma EntryInLimit(s: seq<Byte>, base: nat, i: nat, n: nat, len: nat)
    requires i < n && EntryPos(base, n) + 4 <= len < 0x1_0000 && EntryPos(base, i) + ENTRY_SIZE <= |s|
    ensures InLimit(s, EntryPos(base, i), len) && Position(base, i) == EntryPos(base, i)
  {
  }

  lemma PlainHere(s: seq<Byte>, base: nat, i: nat, n: nat, entry: Entry, rest: Tail, big: bool, len: nat,
                  tables: set<nat>)
    requires Here(s, base, i, n, Plain(entry, rest), big, len, tables)
    ensures i < n && EntryPos(base, n) + 4 <= len < 0x1_0000 && !IsPointer(entry.tag)
    ensures EntryPos(base, i + 1) == EntryPos(base, i) + ENTRY_SIZE
    ensures StoredEntry(s, EntryPos(base, i), entry, big, len, tables) && Bytes(EntryPos(base, i), ENTRY_SIZE) <= tables
    ensures TailTables(rest, EntryPos(base, i + 1)) !! Bytes(EntryPos(base, i), ENTRY_SIZE)
    ensures Here(s, base, i + 1, n, rest, big, len, tables)
    ensures TailHeight(Plain(entry, rest)) == TailHeight(rest)
  {
    hide Bytes, StoredEntry;
  }

  lemma PlainParts(s: seq<Byte>, base: nat, i: nat, entry: Entry, rest: Tail, big: bool, len: nat, tables: set<nat>)
    requires StoredEntry(s, EntryPos(base, i), entry, big, len, tables)
    ensures TailTables(Plain(entry, rest), EntryPos(base, i)) ==
            Bytes(EntryPos(base, i), ENTRY_SIZE) + TailTables(rest, EntryPos(base, i + 1))
    ensures TailShown(Plain(entry, rest)) == [(entry.tag, entry.Meaning())] + TailShown(rest)
    ensures IsType(entry.type_)
    ensures TailSurvives(Plain(entry, rest), big) ==
            (Survives(entry.values, Width(entry.type_), big) && TailSurvives(rest, big))
  {
    hide Survives, Width, Bytes, At, EntryBytes;
    assert EntryPos(base, i + 1) == EntryPos(base, i) + ENTRY_SIZE;
  }

  lemma PlainReads(s: seq<Byte>, base: nat, i: nat, n: nat, entry: Entry, rest: Tail, big: bool, len: nat,
                   tables: set<nat>, fuel: nat)
    requires i < n && EntryPos(base, n) + 4 <= len < 0x1_0000 && !IsPointer(entry.tag)
    requires StoredEntry(s, EntryPos(base, i), entry, big, len, tables)
    requires Bytes(EntryPos(base, i), ENTRY_SIZE) <= tables && EntryPos(base, i) + ENTRY_SIZE <= |s|
    requires Reads(ReadFrom(ConvertAndRead(s, EntryPos(base, i), big, len).1, base, i + 1, n, big, len, fuel),
                   ConvertAndRead(s, EntryPos(base, i), big, len).1, TailTables(rest, EntryPos(base, i + 1)),
                   TailShown(rest), TailSurvives(rest, big))
    ensures Reads(ReadFrom(s, base, i, n, big, len, fuel), s, TailTables(Plain(entry, rest), EntryPos(base, i)),
                  TailShown(Plain(entry, rest)), TailSurvives(Plain(entry, rest), big))
  {
    var pos := EntryPos(base, i);
    var (r, t) := ConvertAndRead(s, pos, big, len);
    hide *;
    PlainParts(s, base, i, entry, rest, big, len, tables);
    var kept := Survives(entry.values, Width(entry.type_), big);
    EntryReads(s, pos, entry, big, len, tables);
    EntryInLimit(s, base, i, n, len);
    AtPlain(s, base, i, n, big, len, fuel);
    ReadsAfter(ReadFrom(t, base, i + 1, n, big, len, fuel), s, t, [(entry.tag, r.data)], Bytes(pos, ENTRY_SIZE),
               [(entry.tag, entry.Meaning())], TailTables(rest, EntryPos(base, i + 1)), TailShown(rest),
               kept, TailSurvives(rest, big));
  }

  lemma {:induction false} DirReads(s: seq<Byte>, d: Dir, big: bool, len: nat, tables: set<nat>, fuel: nat)
    requires StoredDir(s, d, big, len, tables) && Apart(d) && Tables(d) <= tables && Height(d) <= fuel
    ensures Reads(ReadIfd(s, d.base, big, len, fuel), s, Tables(d), Shown(d), DirSurvives(d, big))
    decreases d
  {
    var n := Count(d.tail);
    hide *;
    DirHere(s, d, big, len, tables);
    DirParts(d, big);
    TailReads(s, d.base, 0, n, d.tail, big, len, tables, fuel - 1);
    AtStart(s, d.base, n, big, len, fuel);
    ReadsMore(ReadFrom(s, d.base, 0, n, big, len, fuel - 1), s, TailTables(d.tail, EntryPos(d.base, 0)),
              Tables(d), Shown(d), DirSurvives(d, big));
  }

  lemma ReadsParts(r: Reading, s: seq<Byte>, changed: set<nat>, shown: seq<(nat, TiffData)>, kept: bool)
    requires Reads(r, s, changed, shown, kept)
    ensures r.stop == Complete && Same(s, r.buffer, changed) && |r.shown| == |shown| && (r.shown == shown <==> kept)
    ensures r.stop.Returns()
  {
  }

  lemma SubHere(s: seq<Byte>, base: nat, i: nat, n: nat, tag: nat, child: Dir, rest: Tail, big: bool, len: nat,
                tables: set<nat>)
    requires Here(s, base, i, n, Sub(tag, child, rest), big, len, tables)
    ensures i < n && EntryPos(base, n) + 4 <= len < 0x1_0000 && IsPointer(tag)
    ensures StoredEntry(s, EntryPos(base, i), Pointer(tag, child.base), big, len, tables)
    ensures Bytes(EntryPos(base, i), ENTRY_SIZE) <= tables && Tables(child) <= tables
    ensures Tables(child) !! Bytes(EntryPos(base, i), ENTRY_SIZE)
    ensures TailTables(rest, EntryPos(base, i + 1)) !! Bytes(EntryPos(base, i), ENTRY_SIZE)
    ensures TailTables(rest, EntryPos(base, i + 1)) !! Tables(child)
    ensures StoredDir(s, child, big, len, tables) && Apart(child)
    ensures Here(s, base, i + 1, n, rest, big, len, tables)
    ensures Height(child) <= TailHeight(Sub(tag, child, rest)) && TailHeight(rest) <= TailHeight(Sub(tag, child, rest))
  {
    hide *;
    HereParts(s, base, i, n, Sub(tag, child, rest), big, len, tables);
    SubTables(EntryPos(base, i), tag, child, rest, tables);
    SubStored(s, EntryPos(base, i), tag, child, rest, big, len, tables);
    SubCounts(base, i, tag, child, rest);
    HereFrom(s, base, i + 1, n, rest, big, len, tables);
  }

  lemma HereParts(s: seq<Byte>, base: nat, i: nat, n: nat, t: Tail, big: bool, len: nat, tables: set<nat>)
    requires Here(s, base, i, n, t, big, len, tables)
    ensures n == i + Count(t) && EntryPos(base, n) + 4 <= len < 0x1_0000
    ensures StoredTail(s, t, EntryPos(base, i), big, len, tables)
    ensures TailApart(t, EntryPos(base, i)) && TailTables(t, EntryPos(base, i)) <= tables
  {
    hide StoredTail, TailApart, TailTables, EntryPos, Count;
  }

  lemma HereFrom(s: seq<Byte>, base: nat, i: nat, n: nat, t: Tail, big: bool, len: nat, tables: set<nat>)
    requires n == i + Count(t) && EntryPos(base, n) + 4 <= len < 0x1_0000
    requires StoredTail(s, t, EntryPos(base, i), big, len, tables)
    requires TailApart(t, EntryPos(base, i)) && TailTables(t, EntryPos(base, i)) <= tables
    ensures Here(s, base, i, n, t, big, len, tables)
  {
    hide StoredTail, TailApart, TailTables, EntryPos, Count;
  }

  lemma SubCounts(base: nat, i: nat, tag: nat, child: Dir, rest: Tail)
    ensures Count(Sub(tag, child, rest)) == 1 + Count(rest) && EntryPos(base, i + 1) == EntryPos(base, i) + ENTRY_SIZE
    ensures Height(child) <= TailHeight(Sub(tag, child, rest)) && TailHeight(rest) <= TailHeight(Sub(tag, child, rest))
  {
    hide Height;
  }

  lemma SubTables(pos: nat, tag: nat, child: Dir, rest: Tail, tables: set<nat>)
    requires TailApart(Sub(tag, child, rest), pos) && TailTables(Sub(tag, child, rest), pos) <= tables
    ensures Bytes(pos, ENTRY_SIZE) <= tables && Tables(child) <= tables
    ensures TailTables(rest, pos + ENTRY_SIZE) <= tables
    ensures Tables(child) !! Bytes(pos, ENTRY_SIZE)
    ensures TailTables(rest, pos + ENTRY_SIZE) !! Bytes(pos, ENTRY_SIZE)
    ensures TailTables(rest, pos + ENTRY_SIZE) !! Tables(child)
    ensures Apart(child) && TailApart(rest, pos + ENTRY_SIZE)
  {
    hide Bytes, Tables, Apart;
  }

  lemma SubStored(s: seq<Byte>, pos: nat, tag: nat, child: Dir, rest: Tail, big: bool, len: nat, tables: set<nat>)
    requires StoredTail(s, Sub(tag, child, rest), pos, big, len, tables)
    ensures IsPointer(tag) && StoredEntry(s, pos, Pointer(tag, child.base), big, len, tables)
    ensures StoredDir(s, child, big, len, tables) && StoredTail(s, rest, pos + ENTRY_SIZE, big, len, tables)
  {
    hide StoredEntry, StoredDir;
  }

  lemma SubParts(base: nat, i: nat, tag: nat, child: Dir, rest: Tail, big: bool)
    ensures TailTables(Sub(tag, child, rest), EntryPos(base, i)) ==
            Bytes(EntryPos(base, i), ENTRY_SIZE) + Tables(child) + TailTables(rest, EntryPos(base, i + 1))
    ensures TailShown(Sub(tag, child, rest)) == Shown(child) + TailShown(rest)
    ensures TailSurvives(Sub(tag, child, rest), big) == (DirSurvives(child, big) && TailSurvives(rest, big))
  {
    assert EntryPos(base, i + 1) == EntryPos(base, i) + ENTRY_SIZE;
    hide Bytes, Tables, DirSurvives, Shown, EntryPos;
  }

  /** A pointer's value always survives. */
  lemma PointerReads(s: seq<Byte>, pos: nat, tag: nat, child: nat, big: bool, len: nat, tables: set<nat>)
    requires StoredEntry(s, pos, Pointer(tag, child), big, len, tables) && Bytes(pos, ENTRY_SIZE) <= tables
    requires len < 0x1_0000
    ensures pos + ENTRY_SIZE <= |s|
    ensures var (r, t) := ConvertAndRead(s, pos, big, len);
            && r == Decoded(TiffData(LONG, 1, [child]))
            && Load(t, pos, 2) == tag && Same(s, t, Bytes(pos, ENTRY_SIZE))
  {
    hide *;
    PointerFacts(tag, child, big);
    EntryReads(s, pos, Pointer(tag, child), big, len, tables);
  }

  lemma PointerFacts(tag: nat, child: nat, big: bool)
    ensures var e := Pointer(tag, child);
            && e.tag == tag && IsType(e.type_) && Survives(e.values, Width(e.type_), big)
            && e.Meaning() == TiffData(LONG, 1, [child])
  {
    hide CString, KeptBySwap64;
  }

  lemma SubReads(s: seq<Byte>, base: nat, i: nat, n: nat, tag: nat, child: Dir, rest: Tail, big: bool, len: nat,
                 tables: set<nat>, fuel: nat)
    requires i < n && EntryPos(base, n) + 4 <= len < 0x1_0000 && IsPointer(tag)
    requires StoredEntry(s, EntryPos(base, i), Pointer(tag, child.base), big, len, tables)
    requires Bytes(EntryPos(base, i), ENTRY_SIZE) <= tables && EntryPos(base, i) + ENTRY_SIZE <= |s|
    requires Reads(ReadIfd(ConvertAndRead(s, EntryPos(base, i), big, len).1, child.base, big, len, fuel),
                   ConvertAndRead(s, EntryPos(base, i), big, len).1, Tables(child), Shown(child),
                   DirSurvives(child, big))
    requires var below := ReadIfd(ConvertAndRead(s, EntryPos(base, i), big, len).1, child.base, big, len, fuel);
             Reads(ReadFrom(below.buffer, base, i + 1, n, big, len, fuel), below.buffer,
                   TailTables(rest, EntryPos(base, i + 1)), TailShown(rest), TailSurvives(rest, big))
    ensures Reads(ReadFrom(s, base, i, n, big, len, fuel), s, TailTables(Sub(tag, child, rest), EntryPos(base, i)),
                  TailShown(Sub(tag, child, rest)), TailSurvives(Sub(tag, child, rest), big))
  {
    hide *;
    var pos := EntryPos(base, i);
    var t := ConvertAndRead(s, pos, big, len).1;
    var below := ReadIfd(t, child.base, big, len, fuel);
    SubParts(base, i, tag, child, rest, big);
    PointerReads(s, pos, tag, child.base, big, len, tables);
    EntryInLimit(s, base, i, n, len);
    ReadsParts(below, t, Tables(child), Shown(child), DirSurvives(child, big));
    AtPointer(s, base, i, n, big, len, fuel);
    SameThrough(s, t, below.buffer, Bytes(pos, ENTRY_SIZE), Tables(child));
    ReadsAfter(ReadFrom(below.buffer, base, i + 1, n, big, len, fuel), s, below.buffer, below.shown,
               Bytes(pos, ENTRY_SIZE) + Tables(child), Shown(child), TailTables(rest, EntryPos(base, i + 1)),
               TailShown(rest), DirSurvives(child, big), TailSurvives(rest, big));
  }

  lemma DirParts(d: Dir, big: bool)
    ensures Height(d) == 1 + TailHeight(d.tail) && Shown(d) == TailShown(d.tail)
    ensures DirSurvives(d, big) == TailSurvives(d.tail, big)
  {
    hide TailHeight, TailShown, TailSurvives;
  }

  lemma ReadsMore(r: Reading, s: seq<Byte>, a: set<nat>, b: set<nat>, shown: seq<(nat, TiffData)>, kept: bool)
    requires Reads(r, s, a, shown, kept) && a <= b
    ensures Reads(r, s, b, shown, kept)
  {
  }

  lemma DirHere(s: seq<Byte>, d: Dir, big: bool, len: nat, tables: set<nat>)
    requires StoredDir(s, d, big, len, tables) && Apart(d) && Tables(d) <= tables
    ensures Here(s, d.base, 0, Count(d.tail), d.tail, big, len, tables)
    ensures TailTables(d.tail, EntryPos(d.base, 0)) <= Tables(d)
    ensures d.base < len - 4 < 0x1_0000 && At(s, d.base, Number(Count(d.tail), 2, big)) && Count(d.tail) < 0x1_0000
  {
    hide Bytes, StoredTail, TailTables, TailApart, At, Number;
  }

  lemma AtStart(s: seq<Byte>, base: nat, n: nat, big: bool, len: nat, fuel: nat)
    requires fuel > 0 && base < len - 4 < 0x1_0000 && n < 0x1_0000 && At(s, base, Number(n, 2, big))
    ensures ReadIfd(s, base, big, len, fuel) == ReadFrom(s, base, 0, n, big, len, fuel - 1)
  {
    TwoBytes();
    AtFits(s, base, Number(n, 2, big));
    LoadsOne(s, base, n, 2, big);
    assert OffsetLimit(len) == len - 4;
    hide LoadValue, ReadFrom, At, Number;
  }

  lemma TwoBytes()
    ensures Pow256(2) == 0x1_0000
  {
    assert Pow256(1) == 0x100;
  }

  lemma {:induction false} TailReads(s: seq<Byte>, base: nat, i: nat, n: nat, t: Tail, big: bool, len: nat,
                                     tables: set<nat>, fuel: nat)
    requires Here(s, base, i, n, t, big, len, tables) && TailHeight(t) <= fuel
    ensures Reads(ReadFrom(s, base, i, n, big, len, fuel), s, TailTables(t, EntryPos(base, i)), TailShown(t),
                  TailSurvives(t, big))
    decreases t
  {
    hide *;
    match t
    case Plain(entry, rest) =>
      PlainHere(s, base, i, n, entry, rest, big, len, tables);
      EntryReads(s, EntryPos(base, i), entry, big, len, tables);
      var after := ConvertAndRead(s, EntryPos(base, i), big, len).1;
      RestHere(s, after, Bytes(EntryPos(base, i), ENTRY_SIZE), base, i, n, rest, big, len, tables);
      TailReads(after, base, i + 1, n, rest, big, len, tables, fuel);
      PlainReads(s, base, i, n, entry, rest, big, len, tables, fuel);
    case Sub(tag, child, rest) =>
      SubHere(s, base, i, n, tag, child, rest, big, len, tables);
      var entry, pos := Pointer(tag, child.base), EntryPos(base, i);
      EntryReads(s, pos, entry, big, len, tables);
      var after := ConvertAndRead(s, pos, big, len).1;
      RestHere(s, after, Bytes(pos, ENTRY_SIZE), base, i, n, rest, big, len, tables);
      DirKept(s, after, Bytes(pos, ENTRY_SIZE), child, big, len, tables);
      DirReads(after, child, big, len, tables, fuel);
      var below := ReadIfd(after, child.base, big, len, fuel);
      ReadsParts(below, after, Tables(child), Shown(child), DirSurvives(child, big));
      RestHere(after, below.buffer, Tables(child), base, i, n, rest, big, len, tables);
      TailReads(below.buffer, base, i + 1, n, rest, big, len, tables, fuel);
      SubReads(s, base, i, n, tag, child, rest, big, len, tables, fuel);
    case Last =>
      LastHere(s, base, i, n, big, len, tables);
      LastReads(s, base, n, big, len, tables, fuel);
    case Next(dir) =>
      NextHere(s, base, i, n, dir, big, len, tables);
      DirReads(s, dir, big, len, tables, fuel);
      NextReads(s, base, n, dir, big, len, tables, fuel);
  }

  lemma LastHere(s: seq<Byte>, base: nat, i: nat, n: nat, big: bool, len: nat, tables: set<nat>)
    requires Here(s, base, i, n, Last, big, len, tables)
    ensures i == n && TailShown(Last) == [] && TailSurvives(Last, big)
  {
  }

  lemma NextHere(s: seq<Byte>, base: nat, i: nat, n: nat, dir: Dir, big: bool, len: nat, tables: set<nat>)
    requires Here(s, base, i, n, Next(dir), big, len, tables)
    ensures i == n && StoredDir(s, dir, big, len, tables) && Apart(dir) && Tables(dir) <= tables
    ensures TailHeight(Next(dir)) == Height(dir)
  {
    hide StoredDir, Apart, Tables, Height, At, Bytes;
  }

  /** Round trip of whole directories: whatever tree of them a writer lays out without overlaps, in
      either byte order, the reader gets to the end of it, changes no byte outside the tables, and shows
      the writer's values in order exactly when the 64-bit swap, if it is used, keeps them. */
  lemma IfdRoundTrip(s: seq<Byte>, d: Dir, big: bool, len: nat, fuel: nat)
    requires StoredTree(s, d, big, len) && Height(d) <= fuel
    ensures Reads(ReadIfd(s, d.base, big, len, fuel), s, Tables(d), Shown(d), DirSurvives(d, big))
  {
    DirReads(s, d, big, len, Tables(d), fuel);
  }

  predicate NoDoubles(d: Dir)
  {
    TailNoDoubles(d.tail)
  }

  predicate TailNoDoubles(t: Tail)
  {
    match t
    case Plain(entry, rest) => entry.type_ != DOUBLE && TailNoDoubles(rest)
    case Sub(_, child, rest) => NoDoubles(child) && TailNoDoubles(rest)
    case Last => true
    case Next(dir) => NoDoubles(dir)
  }

  lemma {:induction false} NoDoublesSurvive(s: seq<Byte>, d: Dir, big: bool, len: nat, tables: set<nat>)
    requires StoredDir(s, d, big, len, tables) && NoDoubles(d)
    ensures DirSurvives(d, big)
    decreases d
  {
    hide At, Number, StoredTail, TailNoDoubles, TailSurvives;
    TailNoDoublesSurvive(s, d.tail, d.base + 2, big, len, tables);
  }

  lemma {:induction false} TailNoDoublesSurvive(s: seq<Byte>, t: Tail, pos: nat, big: bool, len: nat, tables: set<nat>)
    requires StoredTail(s, t, pos, big, len, tables) && TailNoDoubles(t)
    ensures TailSurvives(t, big)
    decreases t
  {
    hide At, Number, EntryBytes, Encoded, StoredDir, NoDoubles, DirSurvives, AllBelow, IsPointer, UnitSize, Bytes;
    match t
    case Plain(entry, rest) =>
      NotWide(entry.type_);
      TailNoDoublesSurvive(s, rest, pos + ENTRY_SIZE, big, len, tables);
    case Sub(_, child, rest) =>
      NoDoublesSurvive(s, child, big, len, tables);
      TailNoDoublesSurvive(s, rest, pos + ENTRY_SIZE, big, len, tables);
    case Last =>
    case Next(dir) =>
      NoDoublesSurvive(s, dir, big, len, tables);
  }

  /** Byte-order independence of whole directories without doubles: whatever else the two buffers hold,
      both encodings show the same tags and values, those that were written. */
  lemma IfdByteOrder(s: seq<Byte>, t: seq<Byte>, d: Dir, len: nat, fuel: nat)
    requires StoredTree(s, d, true, len) && StoredTree(t, d, false, len) && NoDoubles(d) && Height(d) <= fuel
    ensures ReadIfd(s, d.base, true, len, fuel).stop == ReadIfd(t, d.base, false, len, fuel).stop == Complete
    ensures ReadIfd(s, d.base, true, len, fuel).shown == ReadIfd(t, d.base, false, len, fuel).shown == Shown(d)
  {
    hide *;
    TreeSurvives(s, d, true, len);
    TreeSurvives(t, d, false, len);
    IfdRoundTrip(s, d, true, len, fuel);
    IfdRoundTrip(t, d, false, len, fuel);
    ReadsParts(ReadIfd(s, d.base, true, len, fuel), s, Tables(d), Shown(d), DirSurvives(d, true));
    ReadsParts(ReadIfd(t, d.base, false, len, fuel), t, Tables(d), Shown(d), DirSurvives(d, false));
  }

  lemma TreeSurvives(s: seq<Byte>, d: Dir, big: bool, len: nat)
    requires StoredTree(s, d, big, len) && NoDoubles(d)
    ensures DirSurvives(d, big)
  {
    hide StoredDir, NoDoubles, Apart, Tables, DirSurvives;
    NoDoublesSurvive(s, d, big, len, Tables(d));
  }
}