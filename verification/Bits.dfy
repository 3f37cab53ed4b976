/** Unsigned machine arithmetic on natural numbers: exclusive or, shifts, masks and
    the little-endian byte layout used by every component of the model. */
module Bits {

  type Byte = x: int | 0 <= x < 256

  const WORD32: nat := 0x1_0000_0000
  const WORD64: nat := 0x1_0000_0000_0000_0000

  function Pow2(k: nat): (r: nat)
    ensures r > 0
  {
    if k == 0 then 1 else 2 * Pow2(k - 1)
  }

  /** Bitwise exclusive or, lowest bit last. */
  function Xor(a: nat, b: nat): nat
    decreases a + b
  {
    if a == 0 && b == 0 then 0 else 2 * Xor(a / 2, b / 2) + (if a % 2 == b % 2 then 0 else 1)
  }

  /** Logical shift right by k bits. */
  function Shr(a: nat, k: nat): nat
  {
    if k == 0 then a else Shr(a / 2, k - 1)
  }

  /** The low k bits of a. */
  function Low(a: nat, k: nat): nat
  {
    if k == 0 then 0 else 2 * Low(a / 2, k - 1) + a % 2
  }

  lemma {:induction false} XorHalf(a: nat, b: nat)
    ensures Xor(a, b) / 2 == Xor(a / 2, b / 2)
    ensures Xor(a, b) % 2 == if a % 2 == b % 2 then 0 else 1
  {
  }

  lemma {:induction false} XorZero(a: nat)
    ensures Xor(a, 0) == a && Xor(0, a) == a
  {
    if a != 0 {
      XorZero(a / 2);
    }
  }

  lemma {:induction false} XorSelf(a: nat)
    ensures Xor(a, a) == 0
  {
    if a != 0 {
      XorSelf(a / 2);
    }
  }

  lemma {:induction false} XorComm(a: nat, b: nat)
    ensures Xor(a, b) == Xor(b, a)
    decreases a + b
  {
    if a != 0 || b != 0 {
      XorComm(a / 2, b / 2);
    }
  }

  lemma {:induction false} XorAssoc(a: nat, b: nat, c: nat)
    ensures Xor(Xor(a, b), c) == Xor(a, Xor(b, c))
    decreases a + b + c
  {
    if a != 0 || b != 0 || c != 0 {
      var l, r := Xor(Xor(a, b), c), Xor(a, Xor(b, c));
      assert l / 2 == r / 2 by {
        XorHalf(a, b);
        XorHalf(b, c);
        XorHalf(Xor(a, b), c);
        XorHalf(a, Xor(b, c));
        XorAssoc(a / 2, b / 2, c / 2);
      }
      assert l % 2 == r % 2 by {
        XorHalf(a, b);
        XorHalf(b, c);
        XorHalf(Xor(a, b), c);
        XorHalf(a, Xor(b, c));
      }
    }
  }

  /** Exclusive or with a fixed operand is its own inverse. */
  lemma XorCancel(a: nat, b: nat)
    ensures Xor(Xor(a, b), b) == a
    ensures Xor(b, Xor(b, a)) == a
  {
    XorAssoc(a, b, b);
    XorAssoc(b, b, a);
    XorSelf(b);
    XorZero(a);
  }

  /** Inner operands of a four-way exclusive or may be exchanged. */
  lemma XorSwap(a: nat, b: nat, c: nat, d: nat)
    ensures Xor(Xor(a, b), Xor(c, d)) == Xor(Xor(a, c), Xor(b, d))
  {
    XorAssoc(a, b, Xor(c, d));
    XorAssoc(b, c, d);
    XorComm(b, c);
    XorAssoc(c, b, d);
    XorAssoc(a, c, Xor(b, d));
  }

  lemma {:induction false} XorBelow(a: nat, b: nat, k: nat)
    requires a < Pow2(k) && b < Pow2(k)
    ensures Xor(a, b) < Pow2(k)
  {
    if k > 0 {
      XorBelow(a / 2, b / 2, k - 1);
      XorHalf(a, b);
    }
  }

  lemma {:induction false} MultipleIsLarge(m: int, d: int)
    requires m > 0 && d != 0
    ensures m * d >= m || m * d <= -m
    decreases if d > 0 then d else -d
  {
    if d > 1 {
      MultipleIsLarge(m, d - 1);
      MultiplePositive(m, d - 1);
    } else if d < -1 {
      MultipleIsLarge(m, d + 1);
      MultiplePositive(m, -(d + 1));
    }
  }

  lemma {:induction false} MultiplePositive(m: int, d: nat)
    requires m > 0
    ensures m * d >= 0
  {
    if d > 0 {
      MultiplePositive(m, d - 1);
      assert m * d == m * (d - 1) + m;
    }
  }

  /** Quotient and remainder are the only pair that fits. */
  lemma DivUnique(a: nat, m: nat, q: nat, r: nat)
    requires r < m && a == m * q + r
    ensures a / m == q && a % m == r
  {
    var q', r' := a / m, a % m;
    assert m * (q - q') == r' - r;
    if q != q' {
      MultipleIsLarge(m, q - q');
    }
  }

  /** Shifting divides by a power of two and masking takes the remainder. */
  lemma {:induction false} ShrLowIsDivMod(a: nat, k: nat)
    ensures Low(a, k) < Pow2(k)
    ensures a / Pow2(k) == Shr(a, k) && a % Pow2(k) == Low(a, k)
  {
    ShrLowSplit(a, k);
    DivUnique(a, Pow2(k), Shr(a, k), Low(a, k));
  }

  lemma {:induction false} ShrLowSplit(a: nat, k: nat)
    ensures Low(a, k) < Pow2(k)
    ensures a == Pow2(k) * Shr(a, k) + Low(a, k)
  {
    if k > 0 {
      ShrLowSplit(a / 2, k - 1);
      DoubleProduct(Pow2(k - 1), Shr(a / 2, k - 1));
    }
  }

  lemma DoubleProduct(p: nat, q: nat)
    ensures (2 * p) * q == 2 * (p * q)
  {
  }

  lemma {:induction false} LowBelow(a: nat, k: nat)
    requires a < Pow2(k)
    ensures Low(a, k) == a && Shr(a, k) == 0
  {
    if k > 0 {
      LowBelow(a / 2, k - 1);
    }
  }

  lemma {:induction false} XorShr(a: nat, b: nat, k: nat)
    ensures Shr(Xor(a, b), k) == Xor(Shr(a, k), Shr(b, k))
  {
    if k > 0 {
      XorHalf(a, b);
      XorShr(a / 2, b / 2, k - 1);
    }
  }

  lemma LowHalf(a: nat, k: nat)
    requires k > 0
    ensures Low(a, k) / 2 == Low(a / 2, k - 1) && Low(a, k) % 2 == a % 2
  {
  }

  lemma SameHalves(a: nat, b: nat)
    requires a / 2 == b / 2 && a % 2 == b % 2
    ensures a == b
  {
  }

  lemma {:induction false} XorLow(a: nat, b: nat, k: nat)
    ensures Low(Xor(a, b), k) == Xor(Low(a, k), Low(b, k))
  {
    if k > 0 {
      hide *;
      XorHalf(a, b);
      XorHalf(Low(a, k), Low(b, k));
      LowHalf(a, k);
      LowHalf(b, k);
      LowHalf(Xor(a, b), k);
      XorLow(a / 2, b / 2, k - 1);
      SameHalves(Low(Xor(a, b), k), Xor(Low(a, k), Low(b, k)));
    }
  }

  lemma {:induction false} Pow2Add(j: nat, k: nat)
    ensures Pow2(j + k) == Pow2(j) * Pow2(k)
  {
    if j > 0 {
      Pow2Add(j - 1, k);
      DoubleProduct(Pow2(j - 1), Pow2(k));
    }
  }

  /** Shifts compose. */
  lemma {:induction false} ShrShr(a: nat, j: nat, k: nat)
    ensures Shr(Shr(a, j), k) == Shr(a, j + k)
  {
    if j > 0 {
      ShrShr(a / 2, j - 1, k);
    }
  }

  lemma {:induction false} ShrOut(a: nat, j: nat, k: nat)
    requires a < Pow2(j) && j <= k
    ensures Shr(a, k) == 0
  {
    if j > 0 {
      ShrOut(a / 2, j - 1, k - 1);
    } else {
      ShrZero(k);
    }
  }

  lemma {:induction false} ShrZero(k: nat)
    ensures Shr(0, k) == 0
  {
    if k > 0 {
      ShrZero(k - 1);
    }
  }

  /** The Gray code x ^ (x >> 1) has no collisions. */
  lemma {:induction false} GrayInjective(a: nat, b: nat)
    requires Xor(a, a / 2) == Xor(b, b / 2)
    ensures a == b
    decreases a + b
  {
    if a != 0 || b != 0 {
      XorHalf(a, a / 2);
      XorHalf(b, b / 2);
      GrayInjective(a / 2, b / 2);
    }
  }

  ghost predicate IsPowerOfTwo(m: nat)
  {
    exists k: nat :: Pow2(k) == m
  }

  lemma {:induction false} BetweenPowers(m: nat) returns (j: nat)
    requires m > 0
    ensures Pow2(j) <= m < 2 * Pow2(j)
  {
    if m == 1 {
      j := 0;
    } else {
      var i := BetweenPowers(m / 2);
      j := i + 1;
    }
  }

  /** Adding a power of two above a number is setting its bit. */
  lemma {:induction false} XorAboveIsSum(r: nat, j: nat)
    requires r < Pow2(j)
    ensures Xor(r, Pow2(j)) == Pow2(j) + r
  {
    if j > 0 {
      XorAboveIsSum(r / 2, j - 1);
      XorHalf(r, Pow2(j));
      assert Pow2(j) / 2 == Pow2(j - 1);
    }
  }

  lemma {:induction false} Pow2Monotone(j: nat, k: nat)
    ensures j <= k ==> Pow2(j) <= Pow2(k)
    decreases k
  {
    if j < k {
      Pow2Monotone(j, k - 1);
    }
  }

  /** The n-byte little-endian encoding of v, high part truncated. */
  function ToLE(v: nat, n: nat): (r: seq<Byte>)
    ensures |r| == n
  {
    if n == 0 then [] else [v % 256] + ToLE(v / 256, n - 1)
  }

  function FromLE(s: seq<Byte>): nat
  {
    if s == [] then 0 else s[0] + 256 * FromLE(s[1..])
  }

  function Pow256(n: nat): (r: nat)
    ensures r > 0
  {
    if n == 0 then 1 else 256 * Pow256(n - 1)
  }

  lemma Pow256Values()
    ensures Pow256(4) == WORD32 && Pow256(8) == WORD64
  {
    assert Pow256(1) == 256 && Pow256(2) == 0x1_0000 && Pow256(3) == 0x100_0000;
    assert Pow256(5) == 256 * Pow256(4) && Pow256(6) == 256 * Pow256(5);
    assert Pow256(7) == 256 * Pow256(6);
  }

  lemma {:induction false} FromToLE(v: nat, n: nat)
    requires v < Pow256(n)
    ensures FromLE(ToLE(v, n)) == v
  {
    if n > 0 {
      FromToLE(v / 256, n - 1);
    }
  }

  lemma {:induction false} ToFromLE(s: seq<Byte>)
    ensures FromLE(s) < Pow256(|s|)
    ensures ToLE(FromLE(s), |s|) == s
  {
    if s != [] {
      var high := FromLE(s[1..]);
      ToFromLE(s[1..]);
      assert FromLE(s) == s[0] + 256 * high;
      assert FromLE(s) % 256 == s[0] && FromLE(s) / 256 == high;
      assert s == [s[0]] + s[1..];
    }
  }

  /** The bytes stand at position p. */
  predicate At(data: seq<Byte>, p: nat, bytes: seq<Byte>)
  {
    p + |bytes| <= |data| && data[p..p + |bytes|] == bytes
  }

  lemma AtSplit(data: seq<Byte>, p: nat, a: seq<Byte>, b: seq<Byte>)
    requires At(data, p, a + b)
    ensures At(data, p, a) && At(data, p + |a|, b)
  {
    var s := data[p..p + |a| + |b|];
    assert s[..|a|] == a && s[|a|..] == b;
    assert data[p..p + |a|] == s[..|a|];
    assert data[p + |a|..p + |a| + |b|] == s[|a|..];
  }

  lemma AtFits(data: seq<Byte>, p: nat, bytes: seq<Byte>)
    requires At(data, p, bytes)
    ensures p + |bytes| <= |data|
  {
  }

  lemma AtByte(data: seq<Byte>, p: nat, bytes: seq<Byte>, k: nat)
    requires At(data, p, bytes) && k < |bytes|
    ensures p + k < |data| && data[p + k] == bytes[k]
  {
    assert data[p..p + |bytes|][k] == data[p + k];
  }
}
