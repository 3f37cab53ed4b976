/** The 64-bit mixer behind every IJON address, its inverse, and what truncating it costs. */
module IjonHash {
  import opened Bits

  const FACTOR1: nat := 0xbf58476d1ce4e5b9
  const FACTOR2: nat := 0x94d049bb133111eb
  const INVERSE1: nat := 0x96de1b173f119089
  const INVERSE2: nat := 0x319642b2d24d8ec3

  /** x ^ (x >> k) */
  function XorShift(x: nat, k: nat): nat
  {
    Xor(x, Shr(x, k))
  }

  /** y ^ (y >> k) ^ (y >> 2k) */
  function UnXorShift(y: nat, k: nat): nat
  {
    Xor(Xor(y, Shr(y, k)), Shr(y, 2 * k))
  }

  /** Unsigned 64-bit multiplication. */
  function Mul64(x: nat, factor: nat): (r: nat)
    ensures r < WORD64
  {
    (x * factor) % WORD64
  }

  function SimpleHash(x: nat): nat
  {
    XorShift(Mul64(XorShift(Mul64(XorShift(x, 30), FACTOR1), 27), FACTOR2), 31)
  }

  /** The mixer as the code runs it, on one variable. */
  method Mix(word: nat) returns (x: nat)
    requires word < WORD64
    ensures x == SimpleHash(word) && x < WORD64
  {
    HashFormula(word);
    HashIsBijective(word);
    x := Xor(word, word / 0x4000_0000) * 0xbf58476d1ce4e5b9 % WORD64;
    x := Xor(x, x / 0x800_0000) * 0x94d049bb133111eb % WORD64;
    x := Xor(x, x / 0x8000_0000);
  }

  lemma PowersForShifts()
    ensures Pow2(30) == 0x4000_0000 && Pow2(27) == 0x800_0000 && Pow2(31) == 0x8000_0000
  {
    assert Pow2(9) == 512;
    hide Pow2;
    Pow2Add(9, 9);
    Pow2Add(18, 9);
    Pow2Add(27, 1);
    Pow2Add(28, 1);
    Pow2Add(29, 1);
    Pow2Add(30, 1);
    PowTwoOne();
  }

  lemma PowTwoOne()
    ensures Pow2(1) == 2
  {
  }

  lemma ShiftsAreDivisions(x: nat)
    ensures XorShift(x, 30) == Xor(x, x / 0x4000_0000)
    ensures XorShift(x, 27) == Xor(x, x / 0x800_0000)
    ensures XorShift(x, 31) == Xor(x, x / 0x8000_0000)
  {
    PowersForShifts();
    hide Xor, Pow2, Shr;
    ShrLowIsDivMod(x, 30);
    ShrLowIsDivMod(x, 27);
    ShrLowIsDivMod(x, 31);
  }

  /** The mixer in terms of quotients and products. */
  lemma HashFormula(x: nat)
    ensures var a := Xor(x, x / 0x4000_0000) * 0xbf58476d1ce4e5b9 % 0x1_0000_0000_0000_0000;
            var b := Xor(a, a / 0x800_0000) * 0x94d049bb133111eb % 0x1_0000_0000_0000_0000;
            SimpleHash(x) == Xor(b, b / 0x8000_0000)
  {
    hide Xor, XorShift;
    ShiftsAreDivisions(x);
    var a := Mul64(XorShift(x, 30), FACTOR1);
    ShiftsAreDivisions(a);
    ShiftsAreDivisions(Mul64(XorShift(a, 27), FACTOR2));
  }

  function Unhash(y: nat): nat
  {
    UnXorShift(Mul64(UnXorShift(Mul64(UnXorShift(y, 31), INVERSE2), 27), INVERSE1), 30)
  }

  lemma Word64IsPow2()
    ensures Pow2(64) == WORD64 && Pow2(32) == WORD32
  {
    assert Pow2(8) == 256;
    hide Pow2;
    Pow2Add(8, 8);
    assert Pow2(16) == 0x1_0000;
    Pow2Add(16, 16);
    Pow2Add(32, 32);
  }

  lemma ShrBelow(x: nat, k: nat, width: nat)
    requires x < Pow2(width)
    ensures Shr(x, k) < Pow2(width)
  {
    ShrLowIsDivMod(x, k);
    QuotientNotLarger(x, Pow2(k));
  }

  lemma QuotientNotLarger(x: nat, m: nat)
    requires m > 0
    ensures x / m <= x
  {
    var q, r := x / m, x % m;
    assert x == m * q + r;
    assert (m - 1) * q >= 0 by {
      if m > 1 {
        MultiplePositive(m - 1, q);
      }
    }
  }

  /** A shift by at least a third of the width can be undone, in either order. */
  lemma XorShiftInverse(x: nat, k: nat, width: nat)
    requires x < Pow2(width) && width <= 3 * k
    ensures UnXorShift(XorShift(x, k), k) == x && XorShift(UnXorShift(x, k), k) == x
    ensures XorShift(x, k) < Pow2(width) && UnXorShift(x, k) < Pow2(width)
  {
    var a, b := Shr(x, k), Shr(x, 2 * k);
    ShrShr(x, k, k);
    ShrShr(x, k, 2 * k);
    ShrShr(x, 2 * k, k);
    ShrOut(x, width, 3 * k);
    ShrBelow(x, k, width);
    ShrBelow(x, 2 * k, width);
    XorBelow(x, a, width);
    XorBelow(Xor(x, a), b, width);
    XorZero(b);
    var y := Xor(x, a);
    XorShr(x, a, k);
    XorShr(x, a, 2 * k);
    assert Shr(y, k) == Xor(a, b) && Shr(y, 2 * k) == b;
    assert Xor(Xor(y, Xor(a, b)), b) == x by {
      XorAssoc(x, a, Xor(a, b));
      XorCancel(b, a);
      XorCancel(x, b);
    }
    var z := Xor(y, b);
    XorShr(y, b, k);
    assert Shr(z, k) == Xor(Xor(a, b), 0);
    XorZero(Xor(a, b));
    assert Xor(z, Xor(a, b)) == x by {
      XorAssoc(x, a, b);
      XorCancel(x, Xor(a, b));
    }
  }

  /** Multiplying by f and then by g, with f * g == 1 + t * 2^64, changes nothing. */
  lemma MulInverse(x: nat, f: nat, g: nat, t: nat)
    requires x < WORD64 && f * g == 1 + t * WORD64
    ensures Mul64(Mul64(x, f), g) == x
  {
    var q, r := (x * f) / WORD64, (x * f) % WORD64;
    assert x * f == q * WORD64 + r;
    var d := x * t - q * g;
    assert r * g == x + d * WORD64 by {
      assert x * f * g == x * (1 + t * WORD64) == x + (x * t) * WORD64 by {
        assert x * f * g == x * (f * g);
      }
      assert x * f * g == (q * WORD64 + r) * g == (q * g) * WORD64 + r * g;
    }
    assert r * g >= 0;
    assert d >= 0;
    DivUnique(r * g, WORD64, d, x);
  }

  lemma FactorsInvert(x: nat)
    requires x < WORD64
    ensures Mul64(Mul64(x, FACTOR1), INVERSE1) == x && Mul64(Mul64(x, INVERSE1), FACTOR1) == x
    ensures Mul64(Mul64(x, FACTOR2), INVERSE2) == x && Mul64(Mul64(x, INVERSE2), FACTOR2) == x
  {
    var t1, t2 := (FACTOR1 * INVERSE1 - 1) / WORD64, (FACTOR2 * INVERSE2 - 1) / WORD64;
    MulInverse(x, FACTOR1, INVERSE1, t1);
    MulInverse(x, INVERSE1, FACTOR1, t1);
    MulInverse(x, FACTOR2, INVERSE2, t2);
    MulInverse(x, INVERSE2, FACTOR2, t2);
  }

  /** The mixer is a permutation of the 64-bit words, and `Unhash` is its inverse. */
  lemma HashIsBijective(x: nat)
    requires x < WORD64
    ensures SimpleHash(x) < WORD64 && Unhash(x) < WORD64
    ensures Unhash(SimpleHash(x)) == x && SimpleHash(Unhash(x)) == x
  {
    Word64IsPow2();
    hide XorShift, UnXorShift, Mul64, Pow2;
    var a := XorShift(x, 30);
    XorShiftInverse(x, 30, 64);
    var b := Mul64(a, FACTOR1);
    FactorsInvert(a);
    var c := XorShift(b, 27);
    XorShiftInverse(b, 27, 64);
    var d := Mul64(c, FACTOR2);
    FactorsInvert(c);
    XorShiftInverse(d, 31, 64);

    var e := UnXorShift(x, 31);
    XorShiftInverse(x, 31, 64);
    var f := Mul64(e, INVERSE2);
    FactorsInvert(e);
    var g := UnXorShift(f, 27);
    XorShiftInverse(f, 27, 64);
    var h := Mul64(g, INVERSE1);
    FactorsInvert(g);
    XorShiftInverse(h, 30, 64);
  }

  // ----- the 32-bit hash of a pair -----

  /** The pair as one word, `old` in the upper half; the halves do not overlap, so `|` is a sum. */
  function Pack(seed: nat, val: nat): nat
  {
    seed * WORD32 + val
  }

  function HashInt(seed: nat, val: nat): (r: nat)
    ensures r < WORD32
  {
    SimpleHash(Pack(seed, val)) % WORD32
  }

  /** The half of the hash that `HashInt` throws away. */
  function DroppedHalf(seed: nat, val: nat): nat
  {
    SimpleHash(Pack(seed, val)) / WORD32
  }

  lemma PackSplits(seed: nat, val: nat)
    requires seed < WORD32 && val < WORD32
    ensures Pack(seed, val) < WORD64
    ensures Pack(seed, val) / WORD32 == seed && Pack(seed, val) % WORD32 == val
  {
  }

  /** Truncation is the only source of collisions: for every hash value and every dropped half there
      is exactly one pair, so each value has exactly 2^32 preimages. */
  lemma OnePairPerHalf(hash: nat, dropped: nat)
    requires hash < WORD32 && dropped < WORD32
    ensures var x := Unhash(Pack(dropped, hash));
            && x / WORD32 < WORD32
            && HashInt(x / WORD32, x % WORD32) == hash && DroppedHalf(x / WORD32, x % WORD32) == dropped
            && forall o, v | 0 <= o < WORD32 && 0 <= v < WORD32 ::
                 HashInt(o, v) == hash && DroppedHalf(o, v) == dropped ==> o == x / WORD32 && v == x % WORD32
  {
    hide SimpleHash, Unhash;
    var y := Pack(dropped, hash);
    PackSplits(dropped, hash);
    HashIsBijective(y);
    var x := Unhash(y);
    assert Pack(x / WORD32, x % WORD32) == x;
    forall o, v | 0 <= o < WORD32 && 0 <= v < WORD32 && HashInt(o, v) == hash && DroppedHalf(o, v) == dropped
      ensures o == x / WORD32 && v == x % WORD32
    {
      PackSplits(o, v);
      HashIsBijective(Pack(o, v));
      assert SimpleHash(Pack(o, v)) == y;
    }
  }

  /** The two halves together never collide: pairs with equal hashes differ in the dropped half. */
  lemma CollisionNeedsTruncation(o1: nat, v1: nat, o2: nat, v2: nat)
    requires o1 < WORD32 && v1 < WORD32 && o2 < WORD32 && v2 < WORD32
    ensures HashInt(o1, v1) == HashInt(o2, v2) && DroppedHalf(o1, v1) == DroppedHalf(o2, v2) <==>
            (o1, v1) == (o2, v2)
  {
    hide SimpleHash, Unhash;
    PackSplits(o1, v1);
    PackSplits(o2, v2);
    HashIsBijective(Pack(o1, v1));
    HashIsBijective(Pack(o2, v2));
  }

  // ----- hashing memory -----

  /** A `char` passed where a `uint32_t` is expected: sign-extended. */
  function CharWord(b: Byte): (r: nat)
    ensures r < WORD32
  {
    if b < 128 then b else WORD32 - 256 + b
  }

  /** Sign extension: adding 128 gives the same modulo 2^32 as modulo 2^8. */
  lemma CharIsSigned(b: Byte)
    ensures (CharWord(b) + 128) % 0x1_0000_0000 == (b + 128) % 256 && CharWord(b) % 256 == b
  {
  }

  function HashAll(seed: nat, bytes: seq<Byte>): nat
  {
    if bytes == [] then seed else HashInt(HashAll(seed, bytes[..|bytes| - 1]), CharWord(bytes[|bytes| - 1]))
  }

  function HashMemSpec(seed: nat, bytes: seq<Byte>): nat
  {
    HashAll(HashInt(seed, |bytes| % WORD32), bytes)
  }

  method HashMem(seed: nat, bytes: seq<Byte>) returns (r: nat)
    requires seed < WORD32
    ensures r == HashMemSpec(seed, bytes) && r < WORD32
  {
    r := HashInt(seed, |bytes| % WORD32);
    for i := 0 to |bytes|
      invariant r == HashAll(HashInt(seed, |bytes| % WORD32), bytes[..i]) && r < WORD32
    {
      assert bytes[..i + 1][..i] == bytes[..i];
      r := HashInt(r, CharWord(bytes[i]));
    }
    assert bytes[..|bytes|] == bytes;
  }

  /** A C string's hash covers exactly the bytes before its first NUL. */
  method HashStr(seed: nat, memory: seq<Byte>) returns (r: nat)
    requires seed < WORD32 && 0 in memory
    ensures exists n | 0 <= n < |memory| ::
              memory[n] == 0 && 0 !in memory[..n] && r == HashMemSpec(seed, memory[..n])
  {
    var n := 0;
    while memory[n] != 0
      invariant n < |memory| && 0 !in memory[..n]
      decreases |memory| - n
    {
      assert memory == memory[..n] + [memory[n]] + memory[n + 1..];
      n := n + 1;
    }
    r := HashMem(seed, memory[..n]);
  }

  /** The hash is a left fold, so a common prefix can be hashed once. */
  lemma {:induction false} HashAllAppend(seed: nat, a: seq<Byte>, b: seq<Byte>)
    ensures HashAll(seed, a + b) == HashAll(HashAll(seed, a), b)
  {
    if b == [] {
      assert a + b == a;
    } else {
      assert (a + b)[..|a + b| - 1] == a + b[..|b| - 1];
      HashAllAppend(seed, a, b[..|b| - 1]);
    }
  }
}
