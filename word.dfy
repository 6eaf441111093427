/** Unsigned machine words of k bits, modelled as naturals below 2^k. */
module Word {
  import opened NonlinearArith

  function Pow2(n: nat): (r: nat)
    ensures r >= 1
  {
    if n == 0 then 1 else 2 * Pow2(n - 1)
  }

  /** Bit i of x (bit 0 is the least significant). */
  predicate BitOf(x: nat, i: nat)
  {
    if i == 0 then x % 2 == 1 else BitOf(x / 2, i - 1)
  }

  function And(a: nat, b: nat): (r: nat)
    ensures r <= a && r <= b
    decreases a
  {
    if a == 0 || b == 0 then 0
    else (if a % 2 == 1 && b % 2 == 1 then 1 else 0) + 2 * And(a / 2, b / 2)
  }

  function Or(a: nat, b: nat): (r: nat)
    decreases a + b
  {
    if a == 0 then b
    else if b == 0 then a
    else (if a % 2 == 1 || b % 2 == 1 then 1 else 0) + 2 * Or(a / 2, b / 2)
  }

  /** The k-bit complement `!x`: every bit below k flipped. */
  function Not(x: nat, k: nat): (r: nat)
    requires x < Pow2(k)
    ensures r < Pow2(k)
  {
    Pow2(k) - 1 - x
  }

  /** The k-bit left shift: bits shifted past bit k-1 are lost. */
  function Shl(x: nat, s: nat, k: nat): (r: nat)
    ensures r < Pow2(k)
    decreases s
  {
    if s == 0 then x % Pow2(k) else Shl((2 * x) % Pow2(k), s - 1, k)
  }

  /** The logical right shift. */
  function Shr(x: nat, s: nat): (r: nat)
    ensures r <= x
  {
    if s == 0 then x else Shr(x / 2, s - 1)
  }

  lemma {:induction false} ZeroBit(i: nat)
    ensures !BitOf(0, i)
  {
    if i > 0 { ZeroBit(i - 1); }
  }

  lemma {:induction false} AndBit(a: nat, b: nat, i: nat)
    ensures BitOf(And(a, b), i) <==> BitOf(a, i) && BitOf(b, i)
    decreases a
  {
    if a == 0 || b == 0 {
      ZeroBit(i);
    } else if i > 0 {
      AndBit(a / 2, b / 2, i - 1);
    }
  }

  lemma {:induction false} OrBit(a: nat, b: nat, i: nat)
    ensures BitOf(Or(a, b), i) <==> BitOf(a, i) || BitOf(b, i)
    decreases a + b
  {
    if a == 0 {
      ZeroBit(i);
    } else if b == 0 {
      ZeroBit(i);
    } else if i > 0 {
      OrBit(a / 2, b / 2, i - 1);
    }
  }

  lemma {:induction false} HighBitsZero(x: nat, k: nat, i: nat)
    requires x < Pow2(k) && k <= i
    ensures !BitOf(x, i)
  {
    if i == 0 {
    } else if k == 0 {
      ZeroBit(i);
    } else {
      HighBitsZero(x / 2, k - 1, i - 1);
    }
  }

  lemma {:induction false} NotBit(x: nat, k: nat, i: nat)
    requires x < Pow2(k)
    ensures BitOf(Not(x, k), i) <==> i < k && !BitOf(x, i)
  {
    if k == 0 {
      ZeroBit(i);
    } else if i > 0 {
      assert (Pow2(k) - 1 - x) / 2 == Pow2(k - 1) - 1 - x / 2;
      NotBit(x / 2, k - 1, i - 1);
    }
  }

  lemma {:induction false} ModBit(x: nat, k: nat, i: nat)
    ensures BitOf(x % Pow2(k), i) <==> i < k && BitOf(x, i)
  {
    if k == 0 {
      ZeroBit(i);
    } else {
      HalveDivMod(x, Pow2(k - 1));
      if i > 0 {
        ModBit(x / 2, k - 1, i - 1);
      }
    }
  }

  lemma {:induction false} OrBound(a: nat, b: nat, k: nat)
    requires a < Pow2(k) && b < Pow2(k)
    ensures Or(a, b) < Pow2(k)
  {
    if a != 0 && b != 0 {
      OrBound(a / 2, b / 2, k - 1);
    }
  }

  lemma {:induction false} Pow2Add(m: nat, n: nat)
    ensures Pow2(m + n) == Pow2(m) * Pow2(n)
  {
    if m > 0 {
      Pow2Add(m - 1, n);
    }
  }

  lemma Pow2Mono(m: nat, n: nat)
    requires m <= n
    ensures Pow2(m) <= Pow2(n)
  {
    Pow2Split(n, m);
  }

  /** 2^n splits as 2^(n-o) * 2^o. */
  lemma Pow2Split(n: nat, o: nat)
    requires o <= n
    ensures Pow2(n) == Pow2(n - o) * Pow2(o)
  {
    var d := n - o;
    Pow2Add(d, o);
    assert d + o == n;
  }

  lemma Pow2Strict(m: nat, n: nat)
    requires m < n
    ensures Pow2(m) < Pow2(n)
  {
    Pow2Mono(m + 1, n);
  }

  /** `1 << n` in a k-bit word, for n < k. */
  lemma ShlOne(n: nat, k: nat)
    requires n < k
    ensures Shl(1, n, k) == Pow2(n)
  {
    ShlValue(1, n, k);
    Pow2Strict(n, k);
    DivModUnique(Pow2(n), Pow2(k), 0, Pow2(n));
  }

  lemma Pow2Of8()
    ensures Pow2(8) == 0x100
  {
  }

  lemma Pow2Of16()
    ensures Pow2(16) == 0x1_0000
  {
    Pow2Of8();
    Pow2Add(8, 8);
  }

  lemma Pow2Of32()
    ensures Pow2(32) == 0x1_0000_0000
  {
    Pow2Of16();
    Pow2Add(16, 16);
  }

  lemma Pow2Of64()
    ensures Pow2(64) == 0x1_0000_0000_0000_0000
  {
    Pow2Of32();
    Pow2Add(32, 32);
  }

  lemma Pow2Small()
    ensures Pow2(1) == 2 && Pow2(2) == 4 && Pow2(3) == 8 && Pow2(4) == 16
    ensures Pow2(5) == 32 && Pow2(6) == 64 && Pow2(7) == 128
  {
  }

  /** A word below 2^n whose bits k..n-1 are clear is below 2^k. */
  lemma {:induction false} ClearHighBits(x: nat, k: nat, n: nat)
    requires x < Pow2(n)
    requires forall i :: k <= i < n ==> !BitOf(x, i)
    ensures x < Pow2(k)
  {
    if n <= k {
      Pow2Mono(n, k);
    } else {
      TopBitClear(x, n);
      ClearHighBits(x, k, n - 1);
    }
  }

  lemma {:induction false} TopBitClear(x: nat, n: nat)
    requires 0 < n && x < Pow2(n) && !BitOf(x, n - 1)
    ensures x < Pow2(n - 1)
  {
    if n > 1 {
      TopBitClear(x / 2, n - 1);
    }
  }

  /** `x >> s` is division by 2^s. */
  lemma {:induction false} ShrValue(x: nat, s: nat)
    ensures Shr(x, s) == x / Pow2(s)
  {
    if s > 0 {
      ShrValue(x / 2, s - 1);
      HalveDivMod(x, Pow2(s - 1));
    }
  }

  /** The k-bit `x << s` is x * 2^s reduced modulo 2^k. */
  lemma {:induction false} ShlValue(x: nat, s: nat, k: nat)
    ensures Shl(x, s, k) == (x * Pow2(s)) % Pow2(k)
    decreases s
  {
    if s > 0 {
      ShlValue((2 * x) % Pow2(k), s - 1, k);
      ModMul(2 * x, Pow2(s - 1), Pow2(k));
      assert 2 * x * Pow2(s - 1) == x * Pow2(s);
    }
  }

  lemma DoubleBit(x: nat, i: nat)
    ensures BitOf(2 * x, i) <==> i > 0 && BitOf(x, i - 1)
  {
  }

  lemma {:induction false} ShlBit(x: nat, s: nat, k: nat, i: nat)
    ensures BitOf(Shl(x, s, k), i) <==> s <= i < k && BitOf(x, i - s)
    decreases s
  {
    if s == 0 {
      ModBit(x, k, i);
    } else {
      ShlBit((2 * x) % Pow2(k), s - 1, k, i);
      if s - 1 <= i {
        ModBit(2 * x, k, i - (s - 1));
        DoubleBit(x, i - (s - 1));
      }
    }
  }

  lemma {:induction false} ShrBit(x: nat, s: nat, i: nat)
    ensures BitOf(Shr(x, s), i) <==> BitOf(x, i + s)
  {
    if s > 0 {
      ShrBit(x / 2, s - 1, i);
    }
  }

  /** Two k-bit words with the same bits are equal. */
  lemma {:induction false} BitsEqual(x: nat, y: nat, k: nat)
    requires x < Pow2(k) && y < Pow2(k)
    requires forall i :: 0 <= i < k ==> (BitOf(x, i) <==> BitOf(y, i))
    ensures x == y
  {
    if k > 0 {
      forall i | 0 <= i < k - 1 ensures BitOf(x / 2, i) <==> BitOf(y / 2, i) {
        assert BitOf(x, i + 1) <==> BitOf(y, i + 1);
      }
      BitsEqual(x / 2, y / 2, k - 1);
      assert BitOf(x, 0) <==> BitOf(y, 0);
    }
  }

  /** Bit i of `(1 << n) - 1` is set exactly below n. */
  lemma {:induction false} LowOnesBit(n: nat, i: nat)
    ensures BitOf(Pow2(n) - 1, i) <==> i < n
  {
    if n == 0 {
      ZeroBit(i);
    } else if i > 0 {
      assert (Pow2(n) - 1) / 2 == Pow2(n - 1) - 1;
      LowOnesBit(n - 1, i - 1);
    }
  }

  lemma ExtractBit(x: nat, o: nat, n: nat, i: nat)
    ensures BitOf((x / Pow2(o)) % Pow2(n), i) <==> i < n && BitOf(x, i + o)
  {
    var y := x / Pow2(o);
    ShrValue(x, o);
    ShrBit(x, o, i);
    ModBit(y, n, i);
  }

  /** 2^n - 2^o: ones from bit o up to bit n-1. */
  function HighOnes(n: nat, o: nat): (r: nat)
    requires o <= n
  {
    Pow2Mono(o, n);
    Pow2(n) - Pow2(o)
  }

  /** Bit i of HighOnes(n, o) is set exactly for o <= i < n. */
  lemma {:induction false} HighOnesBit(n: nat, o: nat, i: nat)
    requires o <= n
    ensures BitOf(HighOnes(n, o), i) <==> o <= i < n
  {
    if o == 0 {
      LowOnesBit(n, i);
    } else {
      assert HighOnes(n, o) == 2 * HighOnes(n - 1, o - 1);
      DoubleBit(HighOnes(n - 1, o - 1), i);
      if i > 0 {
        HighOnesBit(n - 1, o - 1, i - 1);
      }
    }
  }
}
