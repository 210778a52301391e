/** Division, remainder and products of variables. */
module Arithmetic {
  lemma DivModSmall(a: nat, h: nat)
    requires a < h
    ensures a / h == 0 && a % h == a
  {
  }

  lemma DivModStep(a: nat, h: nat)
    requires h > 0 && a >= h
    ensures a / h == (a - h) / h + 1 && a % h == (a - h) % h
  {
    var d, m := (a - h) / h, (a - h) % h;
    assert a - h == h * d + m;
    assert a == h * (d + 1) + m;
    DivModUnique(a, h, d + 1, m);
  }

  lemma DivModUnique(a: nat, h: nat, d: nat, m: nat)
    requires h > 0 && a == h * d + m && m < h
    ensures a / h == d && a % h == m
  {
    assert a == h * (a / h) + a % h;
    MulGap(h, a / h, d);
    MulGap(h, d, a / h);
  }

  lemma MulGap(h: nat, x: nat, y: nat)
    ensures x < y ==> h * x + h <= h * y
  {
    if x < y {
      assert h * (x + 1) <= h * y;
    }
  }

  /** The bytes that n hashes of h bytes take. */
  function Times(h: nat, n: nat): nat {
    h * n
  }

  lemma TimesFacts(h: nat, x: nat, y: nat)
    ensures x <= y ==> Times(h, x) <= Times(h, y)
    ensures Times(h, x + 1) == Times(h, x) + h && Times(h, 0) == 0
  {
    if x <= y {
      MulAtMost(h, x, y);
    }
  }

  lemma MulAtMost(h: nat, x: nat, y: nat)
    requires x <= y
    ensures h * x <= h * y
  {
  }

  lemma ModUnchanged(a: nat, h: nat, d: nat)
    requires h > 0
    ensures (a + h * d) % h == a % h
  {
    assert a + h * d == h * (a / h + d) + a % h;
    DivModUnique(a + h * d, h, a / h + d, a % h);
  }

  /** Reducing by a multiple of the modulus first changes nothing. */
  lemma ModOfMod(a: nat, h: nat, m: nat)
    requires h > 0 && m > 0
    ensures h * m > 0 && (a % (h * m)) % h == a % h
  {
    MulAtMost(h, 1, m);
    var w := h * m;
    var d, r := a / w, a % w;
    assert a == w * d + r;
    assert w * d == h * (m * d);
    ModUnchanged(r, h, m * d);
  }

  lemma ModOfSum(a: nat, b: nat, h: nat)
    requires h > 0
    ensures (a % h + b) % h == (a + b) % h == (a % h + b % h) % h
  {
    assert a + b == (a % h + b) + h * (a / h);
    ModUnchanged(a % h + b, h, a / h);
    assert a % h + b == (a % h + b % h) + h * (b / h);
    ModUnchanged(a % h + b % h, h, b / h);
  }

  // ----- or of two numbers

  function BitOr(a: nat, b: nat): nat
    decreases a + b
  {
    if a == 0 && b == 0 then 0
    else 2 * BitOr(a / 2, b / 2) + if a % 2 == 1 || b % 2 == 1 then 1 else 0
  }

  function Pow2(k: nat): (p: nat)
    ensures p >= 1
  {
    if k == 0 then 1 else 2 * Pow2(k - 1)
  }

  lemma {:induction false} BitOrZero(c: nat)
    ensures BitOr(0, c) == c == BitOr(c, 0)
  {
    if c > 0 {
      BitOrZero(c / 2);
    }
  }

  /** Numbers without a common bit, one of them all below the other's bits: or is sum. */
  lemma {:induction false} BitOrIsSum(a: nat, k: nat, c: nat)
    requires a < Pow2(k)
    ensures BitOr(a, Pow2(k) * c) == a + Pow2(k) * c == BitOr(Pow2(k) * c, a)
  {
    if k == 0 {
      BitOrZero(c);
    } else {
      var p, b := Pow2(k - 1) * c, Pow2(k) * c;
      assert b == 2 * p by { TwiceTimes(Pow2(k - 1), c); }
      assert b / 2 == p && b % 2 == 0;
      BitOrIsSum(a / 2, k - 1, c);
    }
  }

  lemma TwiceTimes(x: nat, c: nat)
    ensures (2 * x) * c == 2 * (x * c)
  {
  }

  lemma PowersOfTwo()
    ensures Pow2(3) == 8 && Pow2(8) == 0x100 && Pow2(16) == 0x1_0000 && Pow2(24) == 0x100_0000
  {
    assert Pow2(2) == 4 && Pow2(4) == 4 * Pow2(2) && Pow2(6) == 4 * Pow2(4) && Pow2(8) == 4 * Pow2(6);
    assert Pow2(10) == 4 * Pow2(8) && Pow2(12) == 4 * Pow2(10) && Pow2(14) == 4 * Pow2(12);
    assert Pow2(16) == 4 * Pow2(14) && Pow2(18) == 4 * Pow2(16) && Pow2(20) == 4 * Pow2(18);
    assert Pow2(22) == 4 * Pow2(20) && Pow2(24) == 4 * Pow2(22);
  }
}
