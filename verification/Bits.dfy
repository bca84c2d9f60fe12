/** Bitwise operations on unsigned machine words, with words as naturals.
    The kernel's descriptor and bitmap code is written with `&`, `|`, `!`, `<<`
    and `>>`; these definitions give the same bits. */
module Bits {

  function Pow2(k: nat): (r: nat)
    ensures r > 0
  {
    if k == 0 then 1 else 2 * Pow2(k - 1)
  }

  /** `a & b` */
  function And(a: nat, b: nat): nat {
    if a == 0 || b == 0 then 0
    else 2 * And(a / 2, b / 2) + (if a % 2 == 1 && b % 2 == 1 then 1 else 0)
  }

  /** `a | b` */
  function Or(a: nat, b: nat): nat
    decreases a + b
  {
    if a == 0 && b == 0 then 0
    else 2 * Or(a / 2, b / 2) + (if a % 2 == 1 || b % 2 == 1 then 1 else 0)
  }

  /** `a >> k` */
  function Shr(a: nat, k: nat): nat {
    if k == 0 then a else Shr(a / 2, k - 1)
  }

  /** `a << k` (no bit falls off the end of a natural) */
  function Shl(a: nat, k: nat): nat {
    if k == 0 then a else 2 * Shl(a, k - 1)
  }

  /** `!a` on a word of `width` bits */
  function Not(a: nat, width: nat): int {
    Pow2(width) - 1 - a
  }

  /** `(w >> k) & 1 != 0` */
  predicate TestBit(w: nat, k: nat) {
    Shr(w, k) % 2 == 1
  }

  /** The low `n` bits of `a`. */
  function Low(a: nat, n: nat): nat {
    if n == 0 then 0 else 2 * Low(a / 2, n - 1) + a % 2
  }

  /** Splitting a word at bit `n`. */
  lemma {:induction false} SplitAt(a: nat, n: nat)
    ensures a == Shr(a, n) * Pow2(n) + Low(a, n) && Low(a, n) < Pow2(n)
    decreases n
  {
    if n > 0 {
      SplitAt(a / 2, n - 1);
      var q := Shr(a, n);
      assert q * Pow2(n) == 2 * (q * Pow2(n - 1));
    }
  }

  /** Shifting down is division, masking the low bits is remainder. */
  lemma ShrIsDiv(a: nat, n: nat)
    ensures Shr(a, n) == a / Pow2(n) && Low(a, n) == a % Pow2(n)
  {
    SplitAt(a, n);
    QuotientUnique(a, Pow2(n), Shr(a, n), Low(a, n));
  }

  lemma QuotientUnique(a: nat, m: nat, q: nat, r: nat)
    requires m > 0 && a == q * m + r && r < m
    ensures a / m == q && a % m == r
  {
    var d := a / m - q;
    var e := r - a % m;
    assert (a / m) * m == q * m + d * m;
    assert d * m == e && -(m as int) < e < m;
    SmallMultiple(d, m);
  }

  lemma SmallMultiple(d: int, m: nat)
    requires m > 0 && -(m as int) < d * m < m
    ensures d == 0
  {
    NonzeroMultiple(d, m);
  }

  lemma NonzeroMultiple(d: int, m: nat)
    ensures d >= 1 ==> d * m >= m
    ensures d <= -1 ==> d * m <= -(m as int)
  {}

  lemma {:induction false} AndBit(a: nat, b: nat, k: nat)
    ensures TestBit(And(a, b), k) == (TestBit(a, k) && TestBit(b, k))
    decreases k
  {
    if a == 0 || b == 0 {
      ZeroBit(k);
    } else if k > 0 {
      assert And(a, b) / 2 == And(a / 2, b / 2);
      AndBit(a / 2, b / 2, k - 1);
    }
  }

  lemma {:induction false} OrBit(a: nat, b: nat, k: nat)
    ensures TestBit(Or(a, b), k) == (TestBit(a, k) || TestBit(b, k))
    decreases k
  {
    if k > 0 {
      assert Or(a, b) / 2 == Or(a / 2, b / 2);
      OrBit(a / 2, b / 2, k - 1);
    }
  }

  lemma {:induction false} ZeroBit(k: nat)
    ensures !TestBit(0, k)
  {
    if k > 0 { ZeroBit(k - 1); }
  }

  lemma {:induction false} Pow2Bit(k: nat, j: nat)
    ensures TestBit(Pow2(k), j) == (j == k)
    decreases j
  {
    if k == 0 {
      if j > 0 { ZeroBit(j - 1); }
    } else if j > 0 {
      assert Pow2(k) / 2 == Pow2(k - 1);
      Pow2Bit(k - 1, j - 1);
    }
  }

  lemma {:induction false} NotBit(a: nat, width: nat, k: nat)
    requires a < Pow2(width) && k < width
    ensures TestBit(Not(a, width), k) == !TestBit(a, k)
    decreases k
  {
    if k > 0 {
      assert Not(a, width) / 2 == Not(a / 2, width - 1);
      NotBit(a / 2, width - 1, k - 1);
    }
  }

  /** A full word has every bit set. */
  lemma {:induction false} OnesBit(width: nat, k: nat)
    requires k < width
    ensures TestBit(Pow2(width) - 1, k)
  {
    ZeroBit(k);
    NotBit(0, width, k);
  }

  /** Testing with a one-bit mask agrees with shifting the bit down. */
  lemma {:induction false} MaskBit(a: nat, k: nat)
    ensures And(a, Pow2(k)) == if TestBit(a, k) then Pow2(k) else 0
    decreases k
  {
    if a == 0 {
      ZeroBit(k);
    } else if k > 0 {
      assert Pow2(k) / 2 == Pow2(k - 1);
      MaskBit(a / 2, k - 1);
    } else {
      assert And(a / 2, 0) == 0;
    }
  }

  lemma {:induction false} AndBound(a: nat, b: nat)
    ensures And(a, b) <= a && And(a, b) <= b
  {
    if a != 0 && b != 0 { AndBound(a / 2, b / 2); }
  }

  lemma {:induction false} OrBound(a: nat, b: nat, width: nat)
    requires a < Pow2(width) && b < Pow2(width)
    ensures Or(a, b) < Pow2(width)
    decreases width
  {
    if width > 0 && (a != 0 || b != 0) { OrBound(a / 2, b / 2, width - 1); }
  }

  /** Masking with `2^n - 1` keeps the low `n` bits. */
  lemma {:induction false} AndLow(a: nat, n: nat)
    ensures And(a, Pow2(n) - 1) == Low(a, n)
    decreases n
  {
    if a == 0 {
      LowZero(n);
    } else if n > 0 {
      assert (Pow2(n) - 1) / 2 == Pow2(n - 1) - 1;
      AndLow(a / 2, n - 1);
    }
  }

  lemma {:induction false} LowZero(n: nat)
    ensures Low(0, n) == 0
  {
    if n > 0 { LowZero(n - 1); }
  }

  /** A mask whose low `s` bits are clear acts above them only. */
  lemma {:induction false} AndShifted(a: nat, m: nat, s: nat)
    ensures And(a, Shl(m, s)) == Shl(And(Shr(a, s), m), s)
    decreases s
  {
    if s > 0 {
      AndShifted(a / 2, m, s - 1);
      AndEven(a, Shl(m, s - 1));
    }
  }

  lemma AndEven(a: nat, h: nat)
    ensures And(a, 2 * h) == 2 * And(a / 2, h)
  {
    if a != 0 && h != 0 {
      assert 2 * h / 2 == h;
    }
  }

  /** Or-ing a value into clear low bits adds it. */
  lemma {:induction false} OrDisjoint(hi: nat, lo: nat, s: nat)
    requires lo < Pow2(s)
    ensures Or(Shl(hi, s), lo) == Shl(hi, s) + lo
    decreases s
  {
    if s == 0 {
      OrZero(hi);
    } else {
      OrDisjoint(hi, lo / 2, s - 1);
    }
  }

  lemma {:induction false} OrZero(a: nat)
    ensures Or(a, 0) == a
  {
    if a > 0 { OrZero(a / 2); }
  }

  lemma {:induction false} ShlIsMul(a: nat, s: nat)
    ensures Shl(a, s) == a * Pow2(s)
  {
    if s > 0 {
      ShlIsMul(a, s - 1);
      assert a * Pow2(s) == 2 * (a * Pow2(s - 1));
    }
  }

  /** The powers of two that occur as field positions. */
  lemma FieldWidths()
    ensures Pow2(9) == 0x200 && Pow2(10) == 0x400 && Pow2(12) == 0x1000
    ensures Pow2(21) == 0x20_0000 && Pow2(30) == 0x4000_0000 && Pow2(36) == 0x10_0000_0000
  {
    Pow2Sum(9, 1);
    Pow2Sum(9, 3);
    Pow2Sum(12, 9);
    Pow2Sum(21, 9);
    Pow2Sum(12, 12);
    Pow2Sum(24, 12);
    assert Pow2(3) == 8;
    Pow2Sum(3, 3);
    Pow2Sum(6, 3);
  }

  lemma {:induction false} Pow2Sum(i: nat, j: nat)
    ensures Pow2(i + j) == Pow2(i) * Pow2(j)
    decreases j
  {
    if j > 0 { Pow2Sum(i, j - 1); }
  }
}
