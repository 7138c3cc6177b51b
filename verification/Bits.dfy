/** Bitwise operators on naturals, defined bit by bit, and what they mean for powers of two. */
module Bits {
  import opened Arith

  function Pow2(k: nat): (r: nat)
    ensures r >= 1
  {
    if k == 0 then 1 else 2 * Pow2(k - 1)
  }

  function BitAnd(a: nat, b: nat): (r: nat)
  {
    if a == 0 || b == 0 then 0
    else (if a % 2 == 1 && b % 2 == 1 then 1 else 0) + 2 * BitAnd(a / 2, b / 2)
  }

  function BitOr(a: nat, b: nat): (r: nat)
  {
    if a == 0 then b
    else if b == 0 then a
    else (if a % 2 == 1 || b % 2 == 1 then 1 else 0) + 2 * BitOr(a / 2, b / 2)
  }

  /** a with the bits of b cleared: the C expression `a & ~b`. */
  function BitClear(a: nat, b: nat): (r: nat)
    ensures r <= a
  {
    if a == 0 || b == 0 then a
    else (if a % 2 == 1 && b % 2 == 0 then 1 else 0) + 2 * BitClear(a / 2, b / 2)
  }

  /** Bit i of a. */
  predicate TestBit(a: nat, i: nat)
  {
    if i == 0 then a % 2 == 1 else TestBit(a / 2, i - 1)
  }

  lemma {:induction false} AddPow2(i: nat, j: nat)
    ensures Pow2(i + j) == Pow2(i) * Pow2(j)
  {
    if j > 0 {
      AddPow2(i, j - 1);
      assert i + j - 1 == i + (j - 1);
      assert Pow2(i) * (2 * Pow2(j - 1)) == 2 * (Pow2(i) * Pow2(j - 1));
    }
  }

  lemma Pow2Values()
    ensures Pow2(8) == 0x100 && Pow2(16) == 0x1_0000 && Pow2(32) == 0x1_0000_0000
  {
    assert Pow2(4) == 16;
    AddPow2(4, 4);
    AddPow2(8, 8);
    AddPow2(16, 16);
  }

  lemma {:induction false} Pow2Monotone(i: nat, j: nat)
    requires i < j
    ensures Pow2(i) < Pow2(j)
    decreases j
  {
    if i < j - 1 { Pow2Monotone(i, j - 1); }
  }

  /** Splitting off the lowest bit before dividing by 2n. */
  lemma DivModDouble(a: nat, n: nat)
    requires n >= 1
    ensures a % (2 * n) == a % 2 + 2 * ((a / 2) % n)
    ensures a / (2 * n) == (a / 2) / n
  {
    var h := a / 2;
    var q, r := h / n, h % n;
    assert h == n * q + r;
    assert a == (2 * n) * q + (2 * r + a % 2) by { assert 2 * (n * q) == (2 * n) * q; }
    DivModUnique(a, 2 * n, q, 2 * r + a % 2);
  }

  lemma {:induction false} TestBitIsDivision(a: nat, i: nat)
    ensures TestBit(a, i) <==> (a / Pow2(i)) % 2 == 1
  {
    if i > 0 {
      TestBitIsDivision(a / 2, i - 1);
      DivModDouble(a, Pow2(i - 1));
    }
  }

  /** Masking with 2^s - 1 is the remainder modulo 2^s. */
  lemma {:induction false} AndLowMask(a: nat, s: nat)
    ensures BitAnd(a, Pow2(s) - 1) == a % Pow2(s)
  {
    if s > 0 {
      var n := Pow2(s - 1);
      assert (2 * n - 1) / 2 == n - 1 && (2 * n - 1) % 2 == 1;
      AndLowMask(a / 2, s - 1);
      DivModDouble(a, n);
      if a == 0 {
        DivModUnique(0, 2 * n, 0, 0);
      }
    }
  }

  lemma {:induction false} ClearPlusAnd(a: nat, b: nat)
    ensures BitClear(a, b) + BitAnd(a, b) == a
  {
    if a != 0 && b != 0 {
      ClearPlusAnd(a / 2, b / 2);
    }
  }

  /** Clearing the mask 2^s - 1 rounds down to a multiple of 2^s. */
  lemma ClearLowMask(a: nat, s: nat)
    ensures BitClear(a, Pow2(s) - 1) == a - a % Pow2(s)
  {
    ClearPlusAnd(a, Pow2(s) - 1);
    AndLowMask(a, s);
  }

  /** Masking with 2^s selects bit s. */
  lemma {:induction false} AndOneBit(a: nat, s: nat)
    ensures BitAnd(a, Pow2(s)) == if TestBit(a, s) then Pow2(s) else 0
  {
    if s > 0 {
      AndOneBit(a / 2, s - 1);
      if a == 0 { ZeroHasNoBits(s); }
    } else {
      assert BitAnd(a, 1) == if a % 2 == 1 then 1 else 0 by {
        if a > 0 { assert BitAnd(a / 2, 0) == 0; }
      }
    }
  }

  lemma {:induction false} ZeroHasNoBits(i: nat)
    ensures !TestBit(0, i)
  {
    if i > 0 { ZeroHasNoBits(i - 1); }
  }

  lemma {:induction false} TestBitOr(a: nat, b: nat, i: nat)
    ensures TestBit(BitOr(a, b), i) <==> TestBit(a, i) || TestBit(b, i)
  {
    if a == 0 || b == 0 {
      ZeroHasNoBits(i);
    } else if i > 0 {
      TestBitOr(a / 2, b / 2, i - 1);
    }
  }

  lemma {:induction false} TestBitClear(a: nat, b: nat, i: nat)
    ensures TestBit(BitClear(a, b), i) <==> TestBit(a, i) && !TestBit(b, i)
  {
    if a == 0 || b == 0 {
      ZeroHasNoBits(i);
    } else if i > 0 {
      TestBitClear(a / 2, b / 2, i - 1);
    }
  }

  /** 2^s has exactly one bit. */
  lemma {:induction false} TestBitPow2(s: nat, i: nat)
    ensures TestBit(Pow2(s), i) <==> i == s
  {
    if s == 0 {
      if i > 0 { ZeroHasNoBits(i - 1); }
    } else if i > 0 {
      TestBitPow2(s - 1, i - 1);
    }
  }

  lemma {:induction false} OrStaysBelow(a: nat, b: nat, k: nat)
    requires a < Pow2(k) && b < Pow2(k)
    ensures BitOr(a, b) < Pow2(k)
    decreases k
  {
    if a > 0 && b > 0 {
      OrStaysBelow(a / 2, b / 2, k - 1);
    }
  }

  /** Reducing a counter modulo 2^w keeps its low w bits, so slot and lap parity survive the wrap of the index. */
  lemma WrapKeepsLowBits(c: nat, w: nat, s: nat)
    requires s < w
    ensures (c % Pow2(w)) % Pow2(s) == c % Pow2(s)
    ensures TestBit(c % Pow2(w), s) <==> (c / Pow2(s)) % 2 == 1
  {
    WrapKeepsBits(c, w, s);
    TestBitIsDivision(c, s);
  }

  lemma {:induction false} WrapKeepsBits(c: nat, w: nat, s: nat)
    requires s < w
    ensures (c % Pow2(w)) % Pow2(s) == c % Pow2(s)
    ensures TestBit(c % Pow2(w), s) <==> TestBit(c, s)
    decreases s
  {
    var n := Pow2(w - 1);
    var r := c % (2 * n);
    DivModDouble(c, n);
    assert r / 2 == (c / 2) % n && r % 2 == c % 2;
    if s > 0 {
      WrapKeepsBits(c / 2, w - 1, s - 1);
      DivModDouble(c, Pow2(s - 1));
      DivModDouble(r, Pow2(s - 1));
    }
  }
}
