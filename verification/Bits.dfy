/** The operators & and | on unsigned integers, by their binary digits, and the arithmetic that masks,
    flags and disjoint fields reduce them to. */
module Bits {
  predicate Odd(v: nat) { v % 2 == 1 }

  function And(a: nat, b: nat): nat {
    if a == 0 || b == 0 then 0 else 2 * And(a / 2, b / 2) + if Odd(a) && Odd(b) then 1 else 0
  }

  function Or(a: nat, b: nat): nat
    decreases a + b
  {
    if a == 0 && b == 0 then 0 else 2 * Or(a / 2, b / 2) + if Odd(a) || Odd(b) then 1 else 0
  }

  function Pow2(n: nat): (p: nat)
    ensures p > 0
  {
    if n == 0 then 1 else 2 * Pow2(n - 1)
  }

  lemma Pow2Values()
    ensures Pow2(8) == 0x100 && Pow2(16) == 0x1_0000 && Pow2(20) == 0x10_0000
    ensures Pow2(24) == 0x100_0000 && Pow2(32) == 0x1_0000_0000
  {
    Pow2Sum(4, 4);
    Pow2Sum(8, 8);
    Pow2Sum(16, 4);
    Pow2Sum(16, 8);
    Pow2Sum(16, 16);
  }

  lemma {:induction false} Pow2Sum(m: nat, n: nat)
    ensures Pow2(m + n) == Pow2(m) * Pow2(n)
  {
    if n > 0 {
      Pow2Sum(m, n - 1);
      Halves(Pow2(m), Pow2(n - 1));
    }
  }

  lemma MulMonotone(m: nat, n: nat, d: nat)
    requires m <= n
    ensures m * d <= n * d
  {
  }

  lemma DivUnique(v: nat, d: nat, q: nat, r: nat)
    requires d > 0 && v == q * d + r && r < d
    ensures v / d == q
  {
    var q' := v / d;
    assert v == q' * d + v % d;
    if q' > q {
      MulMonotone(q + 1, q', d);
    } else if q' < q {
      MulMonotone(q' + 1, q, d);
    }
  }

  lemma Halves(a: nat, p: nat)
    ensures a * (2 * p) == 2 * (a * p)
  {
  }

  lemma {:induction false} OrZero(a: nat)
    ensures Or(a, 0) == a == Or(0, a)
  {
    if a > 0 {
      OrZero(a / 2);
    }
  }

  /** Fields that do not overlap: or is a sum. */
  lemma {:induction false} OrDisjoint(a: nat, b: nat, k: nat)
    requires b < Pow2(k)
    ensures Or(a * Pow2(k), b) == a * Pow2(k) + b
  {
    if k == 0 {
      OrZero(a);
    } else {
      Halves(a, Pow2(k - 1));
      OrDisjoint(a, b / 2, k - 1);
    }
  }

  /** A low mask takes the remainder. */
  lemma {:induction false} AndLow(v: nat, k: nat)
    ensures And(v, Pow2(k) - 1) == v % Pow2(k)
  {
    hide And;
    if k == 0 {
      AndZero(v, 0);
    } else {
      var p := Pow2(k - 1);
      AndOdd(v, p - 1);
      AndLow(v / 2, k - 1);
      Remainder(v, p);
    }
  }

  lemma AndOdd(v: nat, m: nat)
    ensures And(v, 2 * m + 1) == 2 * And(v / 2, m) + v % 2
  {
    assert (2 * m + 1) / 2 == m;
  }

  lemma AndEven(v: nat, m: nat)
    ensures And(v, 2 * m) == 2 * And(v / 2, m)
  {
  }

  lemma Remainder(v: nat, p: nat)
    requires p > 0
    ensures v % (2 * p) == 2 * (v / 2 % p) + v % 2
    ensures v / (2 * p) == v / 2 / p
  {
    var q, r := v / 2 / p, v / 2 % p;
    assert v / 2 == q * p + r;
    Halves(q, p);
    DivUnique(v, 2 * p, q, 2 * r + v % 2);
    assert v == v / (2 * p) * (2 * p) + v % (2 * p);
  }

  /** v with the digits below p, a power of two, cleared. */
  function Cleared(v: nat, p: nat): nat
    requires p > 0
  {
    v / p * p
  }

  lemma ClearedHalf(v: nat, p: nat)
    requires p > 0
    ensures Cleared(v, 2 * p) == 2 * Cleared(v / 2, p)
  {
    Remainder(v, p);
    Halves(v / 2 / p, p);
  }

  lemma AndFull(v: nat, n: nat)
    requires v < Pow2(n)
    ensures And(v, Pow2(n) - 1) == v == Cleared(v, 1)
  {
    AndLow(v, n);
    DivUnique(v, Pow2(n), 0, v);
  }

  /** A netmask, all ones from digit k up to digit n, clears the digits below. */
  lemma {:induction false} AndHigh(v: nat, n: nat, k: nat)
    requires k <= n && v < Pow2(n)
    ensures Pow2(k) <= Pow2(n)
    ensures And(v, Pow2(n) - Pow2(k)) == Cleared(v, Pow2(k))
  {
    hide And, Cleared;
    if k == 0 {
      AndFull(v, n);
    } else {
      AndHigh(v / 2, n - 1, k - 1);
      AndEven(v, Pow2(n - 1) - Pow2(k - 1));
      ClearedHalf(v, Pow2(k - 1));
    }
  }

  lemma AndZero(v: nat, m: nat)
    requires v == 0 || m == 0
    ensures And(v, m) == 0
  {
  }

  // ---------- the operands of the source ----------

  lemma LowByte(v: nat)
    ensures And(v, 0xFF) == v % 0x100
  {
    hide And;
    Pow2Values();
    AndLow(v, 8);
  }

  lemma OrByte(a: nat, b: nat)
    requires b < 0x100
    ensures Or(a * 0x100, b) == a * 0x100 + b
  {
    hide Or;
    Pow2Values();
    OrDisjoint(a, b, 8);
  }

  lemma OrBytes(a: nat, b: nat, c: nat, d: nat)
    requires b < 0x100 && c < 0x100 && d < 0x100
    ensures Or(Or(Or(a * 0x100_0000, b * 0x1_0000), c * 0x100), d)
         == a * 0x100_0000 + b * 0x1_0000 + c * 0x100 + d
  {
    hide Or;
    Pow2Values();
    OrDisjoint(a, b * 0x1_0000, 24);
    OrDisjoint(a * 0x100 + b, c * 0x100, 16);
    OrDisjoint(a * 0x1_0000 + b * 0x100 + c, d, 8);
  }

  lemma FlagsOf(v: nat)
    ensures And(v, 1) != 0 <==> v % 2 == 1
    ensures And(v, 2) != 0 <==> v / 2 % 2 == 1
    ensures Or(0, 1) == 1 && Or(0, 2) == 2 && Or(1, 2) == 3
  {
    assert Pow2(1) - 1 == 1;
    AndLow(v, 1);
    AndLow(v / 2, 1);
    if v > 0 {
      assert And(v, 2) == 2 * And(v / 2, 1);
    }
    OrZero(1);
    OrZero(2);
  }

  lemma Netmasks(ip: nat)
    requires ip < 0x1_0000_0000
    ensures And(ip, 0xFF00_0000) == Cleared(ip, 0x100_0000)
    ensures And(ip, 0xFFF0_0000) == Cleared(ip, 0x10_0000)
    ensures And(ip, 0xFFFF_0000) == Cleared(ip, 0x1_0000)
  {
    hide And, Cleared;
    Pow2Values();
    AndHigh(ip, 32, 24);
    AndHigh(ip, 32, 20);
    AndHigh(ip, 32, 16);
  }
}
