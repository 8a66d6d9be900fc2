/** Powers of two and the binary digits of natural numbers. */
module Bits {

  function Pow2(n: nat): (r: nat)
    ensures r >= 1
  {
    if n == 0 then 1 else 2 * Pow2(n - 1)
  }

  /** Digit `i`, the lowest being digit zero. */
  predicate Bit(x: nat, i: nat) {
    if i == 0 then x % 2 == 1 else Bit(x / 2, i - 1)
  }

  lemma {:induction false} Pow2Adds(m: nat, n: nat)
    ensures Pow2(m + n) == Pow2(m) * Pow2(n)
  {
    if m > 0 {
      Pow2Adds(m - 1, n);
      assert 2 * (Pow2(m - 1) * Pow2(n)) == 2 * Pow2(m - 1) * Pow2(n);
    }
  }

  lemma Multiple(m: int, k: int)
    requires m > 0
    ensures k >= 1 ==> m * k >= m
    ensures k <= -1 ==> m * k <= -m
  {
  }

  lemma OneQuotient(m: int, d: int, s: nat, q: int, r: nat)
    requires m * d + s == m * q + r && s < m && r < m
    ensures d == q && s == r
  {
    assert m * (q - d) == m * q - m * d;
    Multiple(m, q - d);
  }

  lemma DivModUnique(x: nat, m: nat, q: nat, r: nat)
    requires m > 0 && x == m * q + r && r < m
    ensures x / m == q && x % m == r
  {
    var d, s := x / m, x % m;
    assert x == m * d + s;
    OneQuotient(m, d, s, q, r);
  }

  lemma SumOfMultiples(m: int, q: int, d: int)
    ensures m * (q + d) == m * q + m * d
  {
  }

  lemma SumMod(x: nat, y: nat, m: nat, q: nat, r: nat, d: nat, s: nat)
    requires m > 0 && x == m * q + r && r + y == m * d + s && s < m
    ensures (x + y) % m == s
  {
    SumOfMultiples(m, q, d);
    DivModUnique(x + y, m, q + d, s);
  }

  lemma ModAdds(x: nat, y: nat, m: nat)
    requires m > 0
    ensures (x + y) % m == (x % m + y) % m
  {
    var r := x % m;
    SumMod(x, y, m, x / m, r, (r + y) / m, (r + y) % m);
  }

  /** A sequence `first + i * step` taken modulo `m` goes on by `step` each time. */
  lemma StepMod(first: nat, step: nat, i: nat, m: nat)
    requires m > 0
    ensures (first + (i + 1) * step) % m == ((first + i * step) % m + step) % m
  {
    SumOfMultiples(step, i, 1);
    ModAdds(first + i * step, step, m);
  }

  lemma HalveMod(x: nat, half: nat)
    requires half > 0
    ensures x % (2 * half) == 2 * (x / 2 % half) + x % 2
    ensures x % (2 * half) / 2 == x / 2 % half
  {
    var y := x / 2;
    var q, r := y / half, y % half;
    assert y == half * q + r;
    assert x == 2 * y + x % 2;
    assert 2 * (half * q) == (2 * half) * q;
    DivModUnique(x, 2 * half, q, 2 * r + x % 2);
  }

  /** Taking a number modulo a power of two keeps its lower digits. */
  lemma {:induction false} BitOfMod(x: nat, n: nat, i: nat)
    requires i < n
    ensures Bit(x % Pow2(n), i) == Bit(x, i)
    decreases n
  {
    HalveMod(x, Pow2(n - 1));
    if i > 0 {
      BitOfMod(x / 2, n - 1, i - 1);
    }
  }

  /** Multiplying by a power of two moves the digits up. */
  lemma {:induction false} BitOfShift(x: nat, p: nat, i: nat)
    ensures Bit(x * Pow2(p), i) <==> i >= p && Bit(x, i - p)
    decreases p
  {
    if p > 0 {
      var y := x * Pow2(p - 1);
      assert x * Pow2(p) == 2 * y;
      if i > 0 {
        assert 2 * y / 2 == y;
        BitOfShift(x, p - 1, i - 1);
      }
    }
  }

  /** The highest of the `n` lowest digits contributes its power of two. */
  lemma {:induction false} TopBit(x: nat, n: nat)
    requires n > 0
    ensures x % Pow2(n) == x % Pow2(n - 1) + if Bit(x, n - 1) then Pow2(n - 1) else 0
    decreases n
  {
    HalveMod(x, Pow2(n - 1));
    if n > 1 {
      TopBit(x / 2, n - 1);
      HalveMod(x, Pow2(n - 2));
    }
  }

  function Quotient(x: nat, m: nat): (q: nat)
    requires m > 0
    ensures m * q <= x < m * q + m
  {
    Floor(x, m);
    x / m
  }

  lemma Floor(x: nat, m: nat)
    requires m > 0
    ensures x / m >= 0 && m * (x / m) <= x < m * (x / m) + m
  {
    assert x == m * (x / m) + x % m;
    if x / m < 0 { Multiple(m, x / m); }
  }

  lemma QuotientBelow(x: nat, m: nat, n: nat)
    requires m > 0 && x < m * n
    ensures Quotient(x, m) < n
  {
    var q := Quotient(x, m);
    assert m * (q - n) == m * q - m * n;
    Multiple(m, q - n);
  }

  lemma Pow2Of64()
    ensures Pow2(64) == 0x1_0000_0000_0000_0000
  {
    assert Pow2(4) == 16;
    Pow2Adds(4, 4);
    Pow2Adds(8, 8);
    Pow2Adds(16, 16);
    Pow2Adds(32, 32);
  }
}
