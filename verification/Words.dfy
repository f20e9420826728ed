// 64-bit words as naturals: the bit operations the queues use and what they compute.
module Words {

  const W: nat := 0x1_0000_0000_0000_0000

  function Pow2(n: nat): (p: nat)
    ensures p > 0
  {
    if n == 0 then 1 else 2 * Pow2(n - 1)
  }

  // x | y, x & y
  function Or(x: nat, y: nat): nat {
    if x == 0 && y == 0 then 0
    else 2 * Or(x / 2, y / 2) + if x % 2 == 1 || y % 2 == 1 then 1 else 0
  }

  function And(x: nat, y: nat): nat {
    if x == 0 || y == 0 then 0
    else 2 * And(x / 2, y / 2) + if x % 2 == 1 && y % 2 == 1 then 1 else 0
  }

  // x >> n
  function Shr(x: nat, n: nat): nat { if n == 0 then x else Shr(x / 2, n - 1) }

  lemma PowerOfWord()
    ensures Pow2(64) == W && Pow2(63) == 0x8000_0000_0000_0000
  {
    assert Pow2(4) == 16;
    Pow2Sum(4, 4);
    Pow2Sum(8, 8);
    Pow2Sum(16, 16);
    Pow2Sum(32, 32);
  }

  lemma {:induction false} Pow2Sum(m: nat, n: nat)
    ensures Pow2(m + n) == Pow2(m) * Pow2(n)
  {
    if n > 0 {
      Pow2Sum(m, n - 1);
      assert Pow2(m + n) == 2 * Pow2(m + (n - 1));
    }
  }

  lemma {:induction false} Pow2Monotone(m: nat, n: nat)
    requires m <= n
    ensures Pow2(m) <= Pow2(n)
  {
    if m < n { Pow2Monotone(m, n - 1); }
  }

  // x & (2^n - 1) is the remainder, and clearing those bits rounds down to a multiple of 2^n.
  lemma {:induction false} MaskIsRemainder(x: nat, n: nat)
    ensures And(x, Pow2(n) - 1) == x % Pow2(n)
    decreases n
  {
    if n > 0 {
      var p := Pow2(n - 1);
      MaskIsRemainder(x / 2, n - 1);
      HalveRemainder(x, p);
      AndOdd(x, p - 1);
    }
  }

  lemma AndOdd(x: nat, half: nat)
    ensures And(x, 2 * half + 1) == 2 * And(x / 2, half) + x % 2
  {
    assert (2 * half + 1) / 2 == half && (2 * half + 1) % 2 == 1;
  }

  lemma MulAtLeast(d: int, a: int)
    requires d > 0 && a >= 1
    ensures d * a >= d
  {
  }

  lemma RemainderUnique(x: int, d: int, q: int, r: int)
    requires d > 0 && x == d * q + r && 0 <= r < d
    ensures x / d == q && x % d == r
  {
    var q', r' := x / d, x % d;
    assert x == d * q' + r';
    assert d * (q - q') == d * q - d * q' == r' - r;
    assert d * (q' - q) == r - r';
    if q > q' {
      MulAtLeast(d, q - q');
    } else if q < q' {
      MulAtLeast(d, q' - q);
    }
  }

  lemma HalveRemainder(x: nat, p: nat)
    requires p > 0
    ensures x % (2 * p) == 2 * ((x / 2) % p) + x % 2
  {
    var q, r := x / 2 / p, x / 2 % p;
    assert x / 2 == p * q + r;
    assert (2 * p) * q == 2 * (p * q);
    RemainderUnique(x, 2 * p, q, 2 * r + x % 2);
  }

  // ~x
  function Not(x: nat): nat
    requires x < W
  {
    W - 1 - x
  }

  lemma {:induction false} ClearedIsMultiple(x: nat, n: nat, bits: nat, mask: nat)
    requires n <= bits && x < Pow2(bits) && mask == Pow2(bits) - Pow2(n)
    ensures And(x, mask) == x - x % Pow2(n)
    decreases n
  {
    if n == 0 {
      MaskIsRemainder(x, bits);
      SmallRemainder(x, Pow2(bits));
    } else {
      var p := Pow2(n - 1);
      Pow2Monotone(n - 1, bits - 1);
      var half := Pow2(bits - 1) - p;
      ClearedIsMultiple(x / 2, n - 1, bits - 1, half);
      HalveRemainder(x, p);
      AndDouble(x, half);
    }
  }

  lemma AndDouble(x: nat, half: nat)
    ensures And(x, 2 * half) == 2 * And(x / 2, half)
  {
    assert (2 * half) / 2 == half && (2 * half) % 2 == 0;
  }

  lemma SmallRemainder(x: nat, d: nat)
    requires x < d
    ensures x % d == x
  {
  }

  // ---------------------------------------------------------------- rounding up to a power of two

  // r is a power of two, at least x, and no smaller one would do.
  ghost predicate LeastPow2(x: nat, r: nat) {
    exists k: nat :: r == Pow2(k) && x <= Pow2(k) && (k > 0 ==> Pow2(k - 1) < x)
  }

  lemma LeastPow2IsLeast(x: nat, r: nat, j: nat)
    requires LeastPow2(x, r)
    ensures x <= r && (x <= Pow2(j) ==> r <= Pow2(j))
  {
    var k: nat :| r == Pow2(k) && x <= Pow2(k) && (k > 0 ==> Pow2(k - 1) < x);
    if j < k { Pow2Monotone(j, k - 1); } else { Pow2Monotone(k, j); }
  }

  // x has `top` bits, of which all from position m up are set.
  ghost predicate Filled(x: nat, top: nat, m: nat) {
    m <= top && Pow2(m) <= Pow2(top) && Pow2(top) - Pow2(m) <= x < Pow2(top)
  }

  lemma {:induction false} OrBounds(x: nat, y: nat, top: nat)
    requires x < Pow2(top) && y < Pow2(top)
    ensures x <= Or(x, y) < Pow2(top) && y <= Or(x, y)
    decreases top
  {
    if top > 0 { OrBounds(x / 2, y / 2, top - 1); }
  }

  lemma {:induction false} OrFills(x: nat, y: nat, top: nat, m: nat, low: nat)
    requires Filled(x, top, m) && Filled(y, m, low)
    ensures Filled(Or(x, y), top, low)
    decreases m
  {
    OrBounds(x, y, top);
    Pow2Monotone(low, top);
    if m > 0 {
      Pow2Monotone(m - 1, top - 1);
      if low > 0 {
        Pow2Monotone(low - 1, m - 1);
        OrFills(x / 2, y / 2, top - 1, m - 1, low - 1);
      } else {
        Pow2Monotone(0, m - 1);
        OrFills(x / 2, y / 2, top - 1, m - 1, 0);
      }
    }
  }

  function Less(m: nat, n: nat): nat { if n <= m then m - n else 0 }

  lemma {:induction false} ShrFilled(x: nat, top: nat, m: nat, n: nat)
    requires Filled(x, top, m) && n <= top
    ensures Filled(Shr(x, n), top - n, Less(m, n))
    decreases n
  {
    if n > 0 {
      Pow2Monotone(Less(m, 1), top - 1);
      ShrFilled(x / 2, top - 1, Less(m, 1), n - 1);
    }
  }

  lemma {:induction false} ShrAtMost(x: nat, n: nat)
    ensures Shr(x, n) <= x
    decreases n
  {
    if n > 0 { ShrAtMost(x / 2, n - 1); }
  }

  // One smearing step doubles the run of set bits under the top one.
  lemma SmearStep(x: nat, top: nat, s: nat)
    requires Filled(x, top, Less(top, s))
    ensures Filled(Or(x, Shr(x, s)), top, Less(top, 2 * s))
  {
    var m := Less(top, s);
    if s < top {
      ShrFilled(x, top, m, s);
      OrFills(x, Shr(x, s), top, m, Less(m, s));
    } else {
      ShrAtMost(x, s);
      OrBounds(x, Shr(x, s), top);
    }
  }

  lemma {:induction false} TopBit(x: nat) returns (top: nat)
    requires x > 0
    ensures top > 0 && Filled(x, top, top - 1)
  {
    if x == 1 {
      top := 1;
    } else {
      top := TopBit(x / 2);
      top := top + 1;
    }
  }

  // Decrementing, smearing and incrementing again.
  lemma SmearedIsLeast(n: nat, top: nat)
    requires 0 < n && n - 1 < Pow2(top) && (top > 0 ==> Pow2(top - 1) <= n - 1)
    ensures LeastPow2(n, Pow2(top))
  {
  }

  lemma TopOf(x: nat) returns (top: nat)
    requires x < W
    ensures top <= 64 && Filled(x, top, Less(top, 1)) && Pow2(top) <= W
    ensures top == 64 <==> x >= Pow2(63)
    ensures if top == 64 then Pow2(top) == W else Pow2(top) < W
    ensures x < Pow2(top) && (top > 0 ==> Pow2(top - 1) <= x)
  {
    PowerOfWord();
    if x == 0 {
      top := 0;
    } else {
      top := TopBit(x);
      if top > 64 { Pow2Monotone(64, top - 1); }
      if top < 64 { Pow2Monotone(top, 63); }
    }
    if top <= 64 { Pow2Monotone(top, 64); }
  }

  // ceil_to_pow_2 and ceilToPow2 on 64-bit words. Correct from 1 to 2^63; 0 and everything above 2^63
  // wrap around to 0.
  method CeilToPow2(n: nat) returns (x: nat)
    requires n < W
    ensures 1 <= n <= Pow2(63) ==> LeastPow2(n, x)
    ensures n == 0 || n > Pow2(63) ==> x == 0
  {
    hide Pow2, Or, Shr, Filled, LeastPow2;
    x := (n + W - 1) % W;
    ghost var top := TopOf(x);
    SmearStep(x, top, 1);
    x := Or(x, Shr(x, 1));
    SmearStep(x, top, 2);
    x := Or(x, Shr(x, 2));
    SmearStep(x, top, 4);
    x := Or(x, Shr(x, 4));
    var i := 1;
    while i < 8
      invariant i in {1, 2, 4, 8}
      invariant Filled(x, top, Less(top, 8 * i))
    {
      SmearStep(x, top, i * 8);
      x := Or(x, Shr(x, i * 8));
      i := i * 2;
    }
    FilledToZero(x, top);
    x := (x + 1) % W;
    if n > 0 { SmearedIsLeast(n, top); }
  }

  lemma FilledToZero(x: nat, top: nat)
    requires Filled(x, top, 0)
    ensures x == Pow2(top) - 1
  {
  }
}
