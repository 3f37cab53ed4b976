/** Byte-order conversion on a little-endian machine: the three swap routines on unsigned words,
    and what each of them does to the bytes in memory. */
module ByteOrder {
  import opened Bits

  /** ((v & 0xFF00) >> 8) | ((v & 0x00FF) << 8) */
  function Swap16(v: nat): nat
  {
    (v / 0x100) % 0x100 + (v % 0x100) * 0x100
  }

  function Swap32(v: nat): nat
  {
    (v / 0x100_0000) % 0x100 + (v / 0x1_0000) % 0x100 * 0x100 +
    (v / 0x100) % 0x100 * 0x1_0000 + v % 0x100 * 0x100_0000
  }

  /** Bitwise or. */
  function Or(a: nat, b: nat): nat
    decreases a + b
  {
    if a == 0 && b == 0 then 0 else 2 * Or(a / 2, b / 2) + (if a % 2 == 0 && b % 2 == 0 then 0 else 1)
  }

  function OrByte(a: Byte, b: Byte): Byte
  {
    Or(a, b) % 256
  }

  /** Where the 64-bit routine takes the i-th byte of its result from, counted from the low end: byte
      5 is shifted out of the word, and bytes 4 and 2 meet at the same place. */
  function ShuffledByte(b: seq<Byte>, i: nat): Byte
    requires |b| == 8 && i < 8
  {
    if i == 2 || i == 3 then 0
    else if i == 5 then OrByte(b[4], b[2])
    else b[7 - i]
  }

  function Shuffled(b: seq<Byte>): (r: seq<Byte>)
    requires |b| == 8
    ensures |r| == 8 && forall i :: 0 <= i < 8 ==> r[i] == ShuffledByte(b, i)
  {
    seq(8, i requires 0 <= i < 8 => ShuffledByte(b, i))
  }

  function Swap64(v: nat): nat
  {
    FromLE(Shuffled(ToLE(v, 8)))
  }

  function Reversed(s: seq<Byte>): (r: seq<Byte>)
    ensures |r| == |s|
    ensures forall i :: 0 <= i < |s| ==> r[i] == s[|s| - 1 - i]
  {
    if s == [] then [] else Reversed(s[1..]) + [s[0]]
  }

  lemma ReversedTwice(s: seq<Byte>)
    ensures Reversed(Reversed(s)) == s
  {
  }

  /** A word from its bytes. */
  function Sum2(a: nat, b: nat): nat
  {
    a + 0x100 * b
  }

  function Sum4(a: nat, b: nat, c: nat, d: nat): nat
  {
    a + 0x100 * b + 0x1_0000 * c + 0x100_0000 * d
  }

  lemma FromLE2(s: seq<Byte>)
    requires |s| == 2
    ensures FromLE(s) == Sum2(s[0], s[1])
  {
    assert s[1..][1..] == [];
    assert FromLE(s[1..]) == s[1];
  }

  lemma FromLE4(s: seq<Byte>)
    requires |s| == 4
    ensures FromLE(s) == Sum4(s[0], s[1], s[2], s[3])
  {
    FromLE2(s[2..]);
    assert s[1..][1..] == s[2..];
    var a: nat, b: nat := s[0], s[1];
    assert FromLE(s) == a + 0x100 * FromLE(s[1..]);
    assert FromLE(s[1..]) == b + 0x100 * FromLE(s[2..]);
  }

  /** The 16-bit swap reads the two bytes in the opposite order. */
  lemma Swap16Reverses(s: seq<Byte>)
    requires |s| == 2
    ensures Swap16(FromLE(s)) == FromLE(Reversed(s))
  {
    FromLE2(s);
    FromLE2(Reversed(s));
    hide FromLE, Reversed, Swap16, Sum2;
    SwapTwo(s[0], s[1]);
  }

  lemma SwapTwo(a: nat, b: nat)
    requires a < 256 && b < 256
    ensures Swap16(Sum2(a, b)) == Sum2(b, a)
  {
    assert (a + 0x100 * b) / 0x100 == b && (a + 0x100 * b) % 0x100 == a;
  }

  lemma Digits4(a: nat, b: nat, c: nat, d: nat)
    requires a < 256 && b < 256 && c < 256 && d < 256
    ensures var v := Sum4(a, b, c, d);
            && v % 0x100 == a && (v / 0x100) % 0x100 == b
            && (v / 0x1_0000) % 0x100 == c && (v / 0x100_0000) % 0x100 == d
  {
    var v := Sum4(a, b, c, d);
    assert v / 0x100 == b + 0x100 * c + 0x1_0000 * d;
    assert v / 0x1_0000 == c + 0x100 * d;
    assert v / 0x100_0000 == d;
  }

  /** The 32-bit swap reads the four bytes in the opposite order. */
  lemma Swap32Reverses(s: seq<Byte>)
    requires |s| == 4
    ensures Swap32(FromLE(s)) == FromLE(Reversed(s))
  {
    FromLE4(s);
    FromLE4(Reversed(s));
    hide FromLE, Reversed;
    Digits4(s[0], s[1], s[2], s[3]);
  }

  /** The bytes a little-endian or a big-endian writer puts down for v. */
  function Number(v: nat, n: nat, big: bool): (s: seq<Byte>)
    ensures |s| == n
  {
    if big then Reversed(ToLE(v, n)) else ToLE(v, n)
  }

  /** Loading a number and swapping it when its writer was big-endian gives the number. */
  lemma LoadsNumber(v: nat, big: bool)
    ensures v < 0x1_0000 ==>
              var w := FromLE(Number(v, 2, big)); (if big then Swap16(w) else w) == v
    ensures v < WORD32 ==>
              var w := FromLE(Number(v, 4, big)); (if big then Swap32(w) else w) == v
  {
    assert Pow256(1) == 0x100 && Pow256(2) == 0x1_0000 && Pow256(3) == 0x100_0000;
    assert Pow256(4) == WORD32;
    if v < 0x1_0000 {
      FromToLE(v, 2);
      Swap16Reverses(Number(v, 2, big));
      ReversedTwice(ToLE(v, 2));
    }
    if v < WORD32 {
      FromToLE(v, 4);
      Swap32Reverses(Number(v, 4, big));
      ReversedTwice(ToLE(v, 4));
    }
  }

  // ----- the 64-bit routine -----

  lemma {:induction false} OrZero(b: nat)
    ensures Or(0, b) == b
  {
    if b != 0 {
      OrZero(b / 2);
    }
  }

  lemma OrByteZero(b: Byte)
    ensures OrByte(0, b) == b
  {
    OrZero(b);
  }

  lemma {:induction false} OrZeroRight(a: nat)
    ensures Or(a, 0) == a
  {
    if a != 0 {
      OrZeroRight(a / 2);
    }
  }

  lemma {:induction false} OrSelf(a: nat)
    ensures Or(a, a) == a
  {
    if a != 0 {
      OrSelf(a / 2);
    }
  }

  /** `(v & 0xFF << 8 * from) << 8 * (to - from)`, or the shift to the right: one byte of v at its new
      place, which may lie outside the word. */
  function Moved(b: seq<Byte>, from: nat, to: nat): (r: seq<Byte>)
    requires |b| == 8 && from < 8
    ensures |r| == 8
  {
    seq(8, j => if j == to then b[from] else 0)
  }

  function OrWords(a: seq<Byte>, b: seq<Byte>): (r: seq<Byte>)
    requires |a| == |b| == 8
    ensures |r| == 8
  {
    seq(8, j requires 0 <= j < 8 => OrByte(a[j], b[j]))
  }

  lemma OrMoved(a: seq<Byte>, b: seq<Byte>, from: nat, to: nat)
    requires |a| == |b| == 8 && from < 8
    ensures OrWords(a, Moved(b, from, to)) == if to < 8 then a[to := OrByte(a[to], b[from])] else a
    ensures to < 8 && a[to] == 0 ==> OrByte(a[to], b[from]) == b[from]
  {
    OrByteZero(b[from]);
    hide OrByte, Moved, OrWords;
    var m := Moved(b, from, to);
    forall j | 0 <= j < 8
      ensures OrWords(a, m)[j] == if j == to then OrByte(a[j], b[from]) else a[j]
    {
      OrMovedAt(a, b, from, to, j);
    }
  }

  lemma OrMovedAt(a: seq<Byte>, b: seq<Byte>, from: nat, to: nat, j: nat)
    requires |a| == |b| == 8 && from < 8 && j < 8
    ensures OrWords(a, Moved(b, from, to))[j] == if j == to then OrByte(a[j], b[from]) else a[j]
  {
    OrByteZeroRight(a[j]);
    hide OrByte;
  }

  lemma OrByteZeroRight(a: Byte)
    ensures OrByte(a, 0) == a
  {
    OrZeroRight(a);
  }

  /** The routine as its eight masks and shifts: byte 5 is moved to place 8, outside the word, and bytes
      4 and 2 both to place 5. */
  lemma Swap64IsShifts(b: seq<Byte>)
    requires |b| == 8
    ensures Shuffled(b) ==
            OrWords(OrWords(OrWords(OrWords(OrWords(OrWords(OrWords(
              Moved(b, 7, 0), Moved(b, 6, 1)), Moved(b, 5, 8)), Moved(b, 4, 5)),
              Moved(b, 3, 4)), Moved(b, 2, 5)), Moved(b, 1, 6)), Moved(b, 0, 7))
  {
    var w := Moved(b, 7, 0);
    assert w == [b[7], 0, 0, 0, 0, 0, 0, 0];
    hide Moved, OrWords, OrByte;
    OrMoved(w, b, 6, 1);
    w := OrWords(w, Moved(b, 6, 1));
    OrMoved(w, b, 5, 8);
    OrMoved(w, b, 4, 5);
    w := OrWords(w, Moved(b, 4, 5));
    assert w == [b[7], b[6], 0, 0, 0, b[4], 0, 0];
    OrMoved(w, b, 3, 4);
    w := OrWords(w, Moved(b, 3, 4));
    OrMoved(w, b, 2, 5);
    w := OrWords(w, Moved(b, 2, 5));
    OrMoved(w, b, 1, 6);
    w := OrWords(w, Moved(b, 1, 6));
    OrMoved(w, b, 0, 7);
    w := OrWords(w, Moved(b, 0, 7));
    assert w == [b[7], b[6], 0, 0, b[3], OrByte(b[4], b[2]), b[1], b[0]];
  }

  lemma ShuffledAsReversed(s: seq<Byte>, i: nat)
    requires |s| == 8 && s[5] == 0 && s[4] == 0 && i < 8
    ensures Shuffled(s)[i] == Reversed(s)[i]
  {
    OrByteZero(s[2]);
    hide OrByte;
  }

  lemma LostBytes(s: seq<Byte>)
    requires |s| == 8
    ensures Shuffled(s)[2] == 0 == Shuffled(s)[3] && Reversed(s)[2] == s[5] && Reversed(s)[3] == s[4]
  {
    hide OrByte;
  }

  lemma ShuffledIsReversedIff(s: seq<Byte>)
    requires |s| == 8
    ensures Shuffled(s) == Reversed(s) <==> s[5] == 0 && s[4] == 0
  {
    hide *;
    LostBytes(s);
    var w, r := Shuffled(s), Reversed(s);
    if s[5] == 0 && s[4] == 0 {
      forall i | 0 <= i < 8
        ensures w[i] == r[i]
      {
        ShuffledAsReversed(s, i);
      }
    }
  }

  lemma SameBytes(a: seq<Byte>, b: seq<Byte>)
    requires |a| == |b|
    ensures FromLE(a) == FromLE(b) <==> a == b
  {
    ToFromLE(a);
    ToFromLE(b);
  }

  /** Eight bytes come out reversed exactly when bytes 5 and 4 are zero; otherwise the third or
      the fourth byte of the result is wrong. */
  lemma Swap64ReversesIff(s: seq<Byte>)
    requires |s| == 8
    ensures Swap64(FromLE(s)) == FromLE(Reversed(s)) <==> s[5] == 0 && s[4] == 0
  {
    ToFromLE(s);
    assert Swap64(FromLE(s)) == FromLE(Shuffled(s));
    hide *;
    SameBytes(Shuffled(s), Reversed(s));
    ShuffledIsReversedIff(s);
  }
}
