/** Powers of two and the blocks that are aligned to their own size. */
module PowersOfTwo {

  predicate IsPow2(n: nat) {
    n == 1 || (n > 1 && n % 2 == 0 && IsPow2(n / 2))
  }

  function Pow2(k: nat): (r: nat)
    ensures r > 0 && IsPow2(r)
  {
    if k == 0 then 1 else 2 * Pow2(k - 1)
  }

  /** `next_power_of_two`. */
  function RoundUp(n: nat): (p: nat)
    requires n > 0
    ensures IsPow2(p) && n <= p
  {
    if n == 1 then 1 else 2 * RoundUp((n + 1) / 2)
  }

  lemma {:induction false} RoundUpLeast(n: nat, q: nat)
    requires 0 < n <= q && IsPow2(q)
    ensures RoundUp(n) <= q
  {
    if n > 1 {
      RoundUpLeast((n + 1) / 2, q / 2);
    }
  }

  /** `u64::trailing_zeros` of a number that is not zero. */
  function TrailingZeros(n: nat): nat
    requires n > 0
  {
    if n % 2 == 1 then 0 else 1 + TrailingZeros(n / 2)
  }

  /** `63 - leading_zeros`: the place of the highest bit. */
  function Log2(n: nat): nat
    requires n > 0
  {
    if n == 1 then 0 else 1 + Log2(n / 2)
  }

  /** Divisibility by a power of two, bit by bit. */
  predicate Divides(p: nat, n: nat)
    requires IsPow2(p)
  {
    p == 1 || (n % 2 == 0 && Divides(p / 2, n / 2))
  }

  lemma MulMod(q: nat, k: nat)
    requires q > 0
    ensures (q * k) % q == 0
  {
    var d := k - (q * k) / q;
    assert q * d == (q * k) % q;
    assert d >= 1 ==> q * d >= q;
    assert d <= -1 ==> q * d <= q * -1;
  }

  lemma HalfMod(q: nat, n: nat)
    requires q > 0
    ensures n % (2 * q) == 0 <==> n % 2 == 0 && (n / 2) % q == 0
  {
    if n % (2 * q) == 0 {
      var k := n / (2 * q);
      assert n == 2 * (q * k);
      MulMod(q, k);
    }
    if n % 2 == 0 && (n / 2) % q == 0 {
      var k := n / 2 / q;
      assert n == (2 * q) * k;
      MulMod(2 * q, k);
    }
  }

  lemma {:induction false} DividesMod(p: nat, n: nat)
    requires IsPow2(p)
    ensures Divides(p, n) <==> n % p == 0
    decreases p
  {
    if p > 1 {
      DividesMod(p / 2, n / 2);
      HalfMod(p / 2, n);
    }
  }

  lemma {:induction false} Pow2Divides(p: nat, q: nat)
    requires IsPow2(p) && IsPow2(q) && p <= q
    ensures Divides(p, q)
    decreases p
  {
    if p > 1 {
      Pow2Divides(p / 2, q / 2);
    }
  }

  lemma {:induction false} DividesDown(p: nat, q: nat, n: nat)
    requires IsPow2(p) && IsPow2(q) && p <= q && Divides(q, n)
    ensures Divides(p, n)
    decreases p
  {
    if p > 1 {
      DividesDown(p / 2, q / 2, n / 2);
    }
  }

  lemma {:induction false} DividesSum(p: nat, a: nat, b: nat)
    requires IsPow2(p) && Divides(p, a)
    ensures Divides(p, a + b) <==> Divides(p, b)
    decreases p
  {
    if p > 1 && b % 2 == 0 {
      assert (a + b) / 2 == a / 2 + b / 2;
      DividesSum(p / 2, a / 2, b / 2);
    }
  }

  lemma {:induction false} SmallNotDivided(p: nat, n: nat)
    requires IsPow2(p) && 0 < n < p
    ensures !Divides(p, n)
    decreases p
  {
    if n % 2 == 0 {
      SmallNotDivided(p / 2, n / 2);
    }
  }

  /** Different multiples of p are at least p apart. */
  lemma {:induction false} MultiplesApart(p: nat, a: nat, b: nat)
    requires IsPow2(p) && Divides(p, a) && Divides(p, b) && a < b
    ensures a + p <= b
    decreases p
  {
    if p > 1 {
      MultiplesApart(p / 2, a / 2, b / 2);
    }
  }

  lemma {:induction false} ZeroDivided(p: nat)
    requires IsPow2(p)
    ensures Divides(p, 0)
    decreases p
  {
    if p > 1 {
      ZeroDivided(p / 2);
    }
  }

  /** The lowest bit of n is the largest power of two that divides it. */
  lemma {:induction false} LowBit(n: nat, p: nat)
    requires n > 0 && IsPow2(p)
    ensures Divides(Pow2(TrailingZeros(n)), n)
    ensures Divides(p, n) ==> p <= Pow2(TrailingZeros(n))
    decreases n
  {
    if n % 2 == 0 {
      LowBit(n / 2, if p > 1 then p / 2 else 1);
    }
  }

  /** The highest bit of n is the largest power of two that is not above it. */
  lemma {:induction false} HighBit(n: nat, p: nat)
    requires n > 0 && IsPow2(p)
    ensures Pow2(Log2(n)) <= n < 2 * Pow2(Log2(n))
    ensures p <= n ==> p <= Pow2(Log2(n))
    decreases n
  {
    if n > 1 {
      HighBit(n / 2, if p > 1 then p / 2 else 1);
    }
  }

  /** Adding the lowest bit carries it upward. */
  lemma {:induction false} LowBitRises(n: nat)
    requires n > 0
    ensures Pow2(TrailingZeros(n + Pow2(TrailingZeros(n)))) >= 2 * Pow2(TrailingZeros(n))
    decreases n
  {
    if n % 2 == 0 {
      LowBitRises(n / 2);
      assert (n + Pow2(TrailingZeros(n))) / 2 == n / 2 + Pow2(TrailingZeros(n / 2));
    } else {
      assert (n + 1) % 2 == 0;
    }
  }

  /** Adding a bit below the lowest one makes it the lowest. */
  lemma {:induction false} LowBitBelow(n: nat, p: nat)
    requires IsPow2(p) && Divides(2 * p, n)
    ensures Pow2(TrailingZeros(n + p)) == p
    decreases p
  {
    if p > 1 {
      LowBitBelow(n / 2, p / 2);
      assert (n + p) % 2 == 0 && (n + p) / 2 == n / 2 + p / 2;
    }
  }

  lemma {:induction false} Pow2Order(p: nat, q: nat)
    requires IsPow2(p) && IsPow2(q) && p < q
    ensures 2 * p <= q
    decreases p
  {
    if p > 1 {
      Pow2Order(p / 2, q / 2);
    }
  }

  lemma Pow2Plus4(k: nat)
    ensures Pow2(k + 4) == 16 * Pow2(k)
  {
    assert Pow2(k + 1) == 2 * Pow2(k);
    assert Pow2(k + 2) == 2 * Pow2(k + 1);
    assert Pow2(k + 3) == 2 * Pow2(k + 2);
  }

  lemma Pow2Plus16(k: nat)
    ensures Pow2(k + 16) == 65536 * Pow2(k)
  {
    Pow2Plus4(k);
    Pow2Plus4(k + 4);
    Pow2Plus4(k + 8);
    Pow2Plus4(k + 12);
  }
}
